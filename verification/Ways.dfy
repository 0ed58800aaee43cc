/** The rights that the tables above a page leave it, read from memory alone: what an entry put
    into a page table or a page directory will be restricted by, once the missing tables on its
    way have been linked. */
module Ways {
  import opened Words
  import opened Paging
  import opened Mapping

  /** The rights left by the tables already linked on v's way down to level top; where a table is
      missing, the user right stays only if missing tables are linked for users. */
  function Way(mem: Memory, top: nat, level: nat, e: Word, v: Word, r: Rights, users: bool): Rights
    requires level <= top <= 3
    decreases top - level
  {
    if level == top then r
    else if Present(e) && !Huge(e) then
      Way(mem, top, level + 1, Entry(mem, Frame(e), Index(v, level + 1)), v, Restrict(r, e), users)
    else r.(user := r.user && users)
  }

  function WayRights(mem: Memory, root: nat, v: Word, top: nat, users: bool): Rights
    requires top <= 3
  {
    Way(mem, top, 0, Entry(mem, root, Index(v, 0)), v, ALL_RIGHTS, users)
  }

  /** How far down to level top the tables of v's way are there. */
  ghost function Depth(tree: Tree, v: Word, top: nat): (d: nat)
    requires top <= 3
    ensures d <= top && (d != 0 ==> Prefix(v, d) in tree) && (d < top ==> Prefix(v, d + 1) !in tree)
  {
    if top == 0 || Prefix(v, top) in tree then top
    else
      var d := Depth(tree, v, top - 1);
      d
  }

  /** The same read from the tree. */
  ghost function Left(mem: Memory, tree: Tree, v: Word, d: nat, top: nat, users: bool): Rights
    requires d <= top <= 3
  {
    var r := RightsTo(mem, tree, v, d);
    if d == top then r else r.(user := r.user && users)
  }

  lemma {:induction false} WayFrom(mem: Memory, tree: Tree, v: Word, l: nat, d: nat, top: nat, users: bool)
    requires Wf(mem, tree) && l <= d <= top <= 3 && Prefix(v, d) in tree && (d < top ==> Prefix(v, d + 1) !in tree)
    ensures Way(mem, top, l, CellOf(mem, tree, v, l), v, RightsTo(mem, tree, v, l), users) ==
            Left(mem, tree, v, d, top, users)
    decreases d - l
  {
    hide Index, Frame, Restrict, Present, Huge, CellOf, Wf, Prefix;
    PrefixIn(mem, tree, v, l, d);
    if l < d {
      PrefixIn(mem, tree, v, l + 1, d);
      CellBelow(mem, tree, v, l);
      WayFrom(mem, tree, v, l + 1, d, top, users);
    } else if d < top {
      CellStops(mem, tree, v, d);
    }
  }

  /** Where the next table of v's way is there, the entry leads to it. */
  lemma CellBelow(mem: Memory, tree: Tree, v: Word, l: nat)
    requires Wf(mem, tree) && l < 3 && Prefix(v, l) in tree && Prefix(v, l + 1) in tree
    ensures var e := CellOf(mem, tree, v, l);
            Present(e) && !Huge(e) && Entry(mem, Frame(e), Index(v, l + 1)) == CellOf(mem, tree, v, l + 1)
  {
    hide Cells, Index, Frame, Present, Huge, Prefix;
    PrefixZero(v);
    InMemory(mem, tree, Prefix(v, l));
    EntryFacts(mem, tree, Prefix(v, l), Index(v, l));
  }

  lemma CellStops(mem: Memory, tree: Tree, v: Word, l: nat)
    requires Wf(mem, tree) && l < 3 && Prefix(v, l) in tree && Prefix(v, l + 1) !in tree
    ensures var e := CellOf(mem, tree, v, l); !(Present(e) && !Huge(e))
  {
    hide Cells, Index, Frame, Present, Huge, Prefix;
    PrefixZero(v);
    InMemory(mem, tree, Prefix(v, l));
    EntryFacts(mem, tree, Prefix(v, l), Index(v, l));
  }

  lemma InMemory(mem: Memory, tree: Tree, p: Path)
    requires Wf(mem, tree) && p in tree
    ensures tree[p] in mem && |p| <= 3
  {
    hide Cells;
  }

  /** Above a table of v's way its whole way is there. */
  lemma {:induction false} PrefixIn(mem: Memory, tree: Tree, v: Word, l: nat, d: nat)
    requires Wf(mem, tree) && l <= d <= 3 && Prefix(v, d) in tree
    ensures Prefix(v, l) in tree && tree[Prefix(v, l)] in mem
    decreases d
  {
    hide Wf, Index, Prefix;
    InMemory(mem, tree, Prefix(v, d));
    if l < d {
      ParentInTree(mem, tree, v, d);
      PrefixIn(mem, tree, v, l, d - 1);
    }
  }

  lemma WayIs(mem: Memory, tree: Tree, v: Word, top: nat, users: bool)
    requires Wf(mem, tree) && top <= 3
    ensures WayRights(mem, tree[[]], v, top, users) == Left(mem, tree, v, Depth(tree, v, top), top, users)
  {
    hide Index, Frame, Cells;
    PrefixZero(v);
    RootCell(mem, tree, v);
    WayFrom(mem, tree, v, 0, Depth(tree, v, top), top, users);
  }

  // ---------- a new table ----------

  /** A link that takes no right away, or none but the user right. */
  ghost predicate OpenLink(e: Word, users: bool) {
    e & WRITABLE != 0 && (e & USER != 0 <==> users) && e & NO_EXEC == 0
  }

  lemma OpenRestricts(r: Rights, e: Word, users: bool)
    requires OpenLink(e, users)
    ensures Restrict(r, e) == r.(user := r.user && users)
  {
  }

  /** The rights down to a table that was there are as before. */
  lemma {:induction false} RightsGrown(mem: Memory, tree: Tree, p: Path, i: nat, g: nat, t: Table, e: Word, v: Word,
                                       l: nat)
    requires LinkOk(mem, tree, p, i, g, t, e) && l <= 3 && Prefix(v, l) in tree
    ensures RightsTo(Linked(mem, tree, p, i, g, t, e), tree[p + [i] := g], v, l) == RightsTo(mem, tree, v, l)
  {
    hide Restrict, Wf, Index, Linked, CellOf, LinkOk, Prefix;
    if l != 0 {
      LinkParts(mem, tree, p, i, g, t, e);
      PrefixZero(v);
      ParentInTree(mem, tree, v, l);
      RightsGrown(mem, tree, p, i, g, t, e, v, l - 1);
      OldCell(mem, tree, p, i, g, t, e, v, l - 1);
    }
  }

  lemma OldCell(mem: Memory, tree: Tree, p: Path, i: nat, g: nat, t: Table, e: Word, v: Word, l: nat)
    requires LinkOk(mem, tree, p, i, g, t, e) && l <= 3 && Prefix(v, l) in tree &&
             Prefix(v, l) + [Index(v, l)] != p + [i]
    ensures CellOf(Linked(mem, tree, p, i, g, t, e), tree[p + [i] := g], v, l) == CellOf(mem, tree, v, l)
  {
    hide Cells, Index, Frame, Present, Huge;
    LinkElsewhere(mem, tree, p, i, g, t, e);
  }

  lemma NewCell(mem: Memory, tree: Tree, p: Path, i: nat, g: nat, t: Table, e: Word, v: Word)
    requires LinkOk(mem, tree, p, i, g, t, e) && Prefix(v, |p|) == p && Index(v, |p|) == i
    ensures CellOf(Linked(mem, tree, p, i, g, t, e), tree[p + [i] := g], v, |p|) == e
  {
    hide Cells, Index, Frame, Present, Huge;
  }

  /** Linking a fresh table above level top with such a link leaves every way its rights. */
  lemma LinkKeepsWay(mem: Memory, tree: Tree, p: Path, i: nat, g: nat, t: Table, e: Word, v: Word, top: nat,
                     users: bool)
    requires LinkOk(mem, tree, p, i, g, t, e) && |p| < top <= 3 && OpenLink(e, users)
    ensures WayRights(Linked(mem, tree, p, i, g, t, e), tree[[]], v, top, users) ==
            WayRights(mem, tree[[]], v, top, users)
  {
    hide Restrict, Wf, Index, Frame, Present, Huge, Linked, OpenLink, LinkOk, WayRights, CellOf, Prefix;
    LinkParts(mem, tree, p, i, g, t, e);
    var mem', tree' := Linked(mem, tree, p, i, g, t, e), tree[p + [i] := g];
    WayIs(mem, tree, v, top, users);
    WayIs(mem', tree', v, top, users);
    var d := Depth(tree, v, top);
    PrefixZero(v);
    RightsGrown(mem, tree, p, i, g, t, e, v, d);
    DepthGrown(mem, tree, p, i, g, v, top);
    if Depth(tree', v, top) != d {
      NewCell(mem, tree, p, i, g, t, e, v);
      OpenRestricts(RightsTo(mem, tree, v, d), e, users);
    }
  }

  lemma LinkParts(mem: Memory, tree: Tree, p: Path, i: nat, g: nat, t: Table, e: Word)
    requires LinkOk(mem, tree, p, i, g, t, e)
    ensures Wf(mem, tree) && p in tree && tree[p] in mem && i < 512 && p + [i] !in tree && |p| < 3
    ensures [] in tree && forall q :: q in tree ==> |q| <= 3
    ensures Wf(Linked(mem, tree, p, i, g, t, e), tree[p + [i] := g])
  {
    hide Cells, CellOk, Frame, Present, Huge;
    LinkKeepsWf(mem, tree, p, i, g, t, e);
  }

  /** A way gets deeper by one table, where the new one continues it. */
  lemma DepthGrown(mem: Memory, tree: Tree, p: Path, i: nat, g: nat, v: Word, top: nat)
    requires Wf(mem, tree) && p in tree && p + [i] !in tree && |p| < top <= 3
    requires forall q :: q in tree ==> |q| <= 3
    ensures var d, d' := Depth(tree, v, top), Depth(tree[p + [i] := g], v, top);
            d' == d || (d' == d + 1 && Prefix(v, |p|) == p && Index(v, |p|) == i && d == |p|)
  {
    hide Cells, Index;
    var tree' := tree[p + [i] := g];
    var d, d' := Depth(tree, v, top), Depth(tree', v, top);
    PrefixZero(v);
    assert d' >= d by {
      DepthLeast(tree', v, d, top);
    }
    if d' != d {
      if Prefix(v, d') in tree {
        DepthLeast(tree, v, d', top);
      } else {
        assert Prefix(v, d') == p + [i];
        LeafEnds(p, i, v);
        PrefixIn(mem, tree, v, |p|, |p|);
        DepthLeast(tree, v, |p|, top);
      }
    }
  }

  lemma {:induction false} DepthLeast(tree: Tree, v: Word, l: nat, top: nat)
    requires l <= top <= 3 && (l == 0 || Prefix(v, l) in tree)
    ensures Depth(tree, v, top) >= l
    decreases top
  {
    if l < top && Prefix(v, top) !in tree {
      DepthLeast(tree, v, l, top - 1);
    }
  }

  // ---------- a leaf ----------

  /** An entry that links no table, and none in whose place one was linked, decides no way. */
  lemma LeafKeepsWay(mem: Memory, tree: Tree, p: Path, i: nat, e: Word, v: Word, top: nat, users: bool)
    requires Wf(mem, tree) && p in tree && i < 512 && p + [i] !in tree && Wf(SetEntry(mem, tree[p], i, e), tree)
    requires top <= 3
    ensures WayRights(SetEntry(mem, tree[p], i, e), tree[[]], v, top, users) == WayRights(mem, tree[[]], v, top, users)
  {
    hide Cells, Index, Frame, SetEntry, RightsTo;
    var mem' := SetEntry(mem, tree[p], i, e);
    WayIs(mem, tree, v, top, users);
    WayIs(mem', tree, v, top, users);
    SetElsewhere(mem, tree, p, i, e);
    RightsAbove(mem, mem', tree, p, i, v, Depth(tree, v, top));
  }

  lemma {:induction false} RightsAbove(mem: Memory, mem': Memory, tree: Tree, p: Path, i: nat, v: Word, l: nat)
    requires Wf(mem, tree) && SameElsewhere(mem, mem', tree, p, i) && p + [i] !in tree
    requires l <= 3 && (l != 0 ==> Prefix(v, l) in tree)
    ensures RightsTo(mem', tree, v, l) == RightsTo(mem, tree, v, l)
  {
    hide Restrict, Wf, Prefix, Index, CellOf, SameElsewhere;
    if l != 0 {
      PrefixZero(v);
      ParentInTree(mem, tree, v, l);
      RightsAbove(mem, mem', tree, p, i, v, l - 1);
      OtherCell(mem, mem', tree, p, i, v, l - 1);
    }
  }

  lemma OtherCell(mem: Memory, mem': Memory, tree: Tree, p: Path, i: nat, v: Word, l: nat)
    requires SameElsewhere(mem, mem', tree, p, i) && l < 4 && Prefix(v, l) + [Index(v, l)] != p + [i]
    ensures CellOf(mem', tree, v, l) == CellOf(mem, tree, v, l)
  {
    hide Index, Prefix;
  }

  // ---------- all ways ----------

  ghost predicate SameWays(mem: Memory, mem': Memory, root: nat, top: nat, users: bool)
    requires top <= 3
  {
    forall v :: WayRights(mem', root, v, top, users) == WayRights(mem, root, v, top, users)
  }

  lemma SameWaysTrivial(mem: Memory, root: nat, top: nat, users: bool)
    requires top <= 3
    ensures SameWays(mem, mem, root, top, users)
  {
  }

  lemma SameWaysTransitive(m0: Memory, m1: Memory, m2: Memory, root: nat, top: nat, users: bool)
    requires top <= 3 && SameWays(m0, m1, root, top, users) && SameWays(m1, m2, root, top, users)
    ensures SameWays(m0, m2, root, top, users)
  {
    hide WayRights;
  }

  lemma LinkKeepsWays(mem: Memory, tree: Tree, p: Path, i: nat, g: nat, t: Table, e: Word, top: nat, users: bool)
    requires LinkOk(mem, tree, p, i, g, t, e) && |p| < top <= 3 && OpenLink(e, users) && [] in tree
    ensures SameWays(mem, Linked(mem, tree, p, i, g, t, e), tree[[]], top, users)
  {
    hide WayRights, LinkOk, Linked, OpenLink;
    LinkParts(mem, tree, p, i, g, t, e);
    forall v ensures WayRights(Linked(mem, tree, p, i, g, t, e), tree[[]], v, top, users) ==
                     WayRights(mem, tree[[]], v, top, users)
    {
      LinkKeepsWay(mem, tree, p, i, g, t, e, v, top, users);
    }
  }

  lemma LeafKeepsWays(mem: Memory, tree: Tree, p: Path, i: nat, e: Word, top: nat, users: bool)
    requires Wf(mem, tree) && p in tree && i < 512 && p + [i] !in tree && Wf(SetEntry(mem, tree[p], i, e), tree)
    requires top <= 3
    ensures SameWays(mem, SetEntry(mem, tree[p], i, e), tree[[]], top, users)
  {
    hide WayRights, Cells, SetEntry;
    forall v ensures WayRights(SetEntry(mem, tree[p], i, e), tree[[]], v, top, users) ==
                     WayRights(mem, tree[[]], v, top, users)
    {
      LeafKeepsWay(mem, tree, p, i, e, v, top, users);
    }
  }

  /** Where every table down to level top is linked, the way leaves the rights of all its links. */
  lemma WayComplete(mem: Memory, tree: Tree, v: Word, top: nat, users: bool)
    requires Wf(mem, tree) && top <= 3 && Prefix(v, top) in tree
    ensures WayRights(mem, tree[[]], v, top, users) == RightsTo(mem, tree, v, top)
  {
    hide Cells, Index, Frame;
    WayIs(mem, tree, v, top, users);
    DepthLeast(tree, v, top, top);
  }

  /** Under a zeroed root nothing is linked. */
  lemma WayOfNew(mem: Memory, root: nat, v: Word, top: nat, users: bool)
    requires root in mem && mem[root] == ZeroTable() && 0 < top <= 3
    ensures WayRights(mem, root, v, top, users) == Rights(true, users, false)
  {
    hide Index, Frame;
    assert Entry(mem, root, Index(v, 0)) == 0;
  }

  // ---------- the links of the kernel ----------

  const KERNEL_TABLE: Word := 0x3 // present, writable

  /** A zeroed table linked with such flags, above level top. */
  lemma EmptyLinkWays(mem: Memory, tree: Tree, p: Path, i: nat, g: nat, flags: Word, top: nat, users: bool)
    requires Wf(mem, tree) && p in tree && |p| < top <= 3 && i < 512 && !Present(mem[tree[p]][i])
    requires Fresh(tree, g) && LinkFlags(flags) && OpenLink(flags, users)
    ensures [] in tree && SameWays(mem, Linked(mem, tree, p, i, g, ZeroTable(), Link(g, flags)), tree[[]], top, users)
  {
    hide Cells, Link, Frame, SameWays, Present, Huge, Linked;
    EmptyLinkOk(mem, tree, p, i, g, flags);
    LinkWord(g, flags);
    LinkKeepsWays(mem, tree, p, i, g, ZeroTable(), Link(g, flags), top, users);
  }

  /** The split of a 2 MB page. */
  lemma SplitWays(mem: Memory, tree: Tree, p: Path, i: nat, g: nat)
    requires Wf(mem, tree) && p in tree && |p| == 2 && i < 512 && Huge(mem[tree[p]][i]) && Fresh(tree, g)
    ensures var h := mem[tree[p]][i];
            [] in tree &&
            SameWays(mem, Linked(mem, tree, p, i, g, SplitTable(h), Link(g, SplitLinkFlags(h))), tree[[]], 3, true)
  {
    hide Cells, Link, Frame, SameWays, Present, Huge, Linked, SplitTable, SplitLinkFlags;
    var h := mem[tree[p]][i];
    SplitLinkOk(mem, tree, p, i, g);
    SplitLinkBits(h);
    LinkWord(g, SplitLinkFlags(h));
    LinkKeepsWays(mem, tree, p, i, g, SplitTable(h), Link(g, SplitLinkFlags(h)), 3, true);
  }

  /** What a page mapped with such flags is to mean, where the tables above leave it the rights r:
      bit 1 of the flags is the write right, bit 2 the user right, bit 63 forbids execution. */
  function NewPage(r: Rights, phys: Word, flags: Word, w: Word): Translation {
    Hit((phys & 0xFFFF_FFFF_F000) | (w & 0xFFF),
        Rights(r.write && flags & 0x2 != 0, r.user && flags & 0x4 != 0, r.noExec || flags & 0x8000_0000_0000_0000 != 0))
  }

  lemma NewPageIs(mem: Memory, tree: Tree, phys: Word, flags: Word, w: Word)
    ensures Mapped(mem, tree, phys, flags, w) == NewPage(RightsTo(mem, tree, w, 3), phys, flags, w)
  {
  }

  /** Where all links are open to users, every way leaves all rights. */
  lemma WayOpen(mem: Memory, tree: Tree, v: Word)
    requires Wf(mem, tree)
    requires forall q, i: nat :: q in tree && q + [i] in tree ==> OpenLink(Entry(mem, tree[q], i), true)
    ensures WayRights(mem, tree[[]], v, 3, true) == Rights(true, true, false)
  {
    hide Cells, Index, Frame;
    WayIs(mem, tree, v, 3, true);
    AllOpen(mem, tree, v, Depth(tree, v, 3));
  }

  lemma {:induction false} AllOpen(mem: Memory, tree: Tree, v: Word, d: nat)
    requires Wf(mem, tree) && d <= 3 && Prefix(v, d) in tree
    requires forall q, i: nat :: q in tree && q + [i] in tree ==> OpenLink(Entry(mem, tree[q], i), true)
    ensures RightsTo(mem, tree, v, d) == Rights(true, true, false)
  {
    hide Wf, Index, OpenLink, Prefix, Restrict, Entry;
    if d != 0 {
      PrefixZero(v);
      ParentInTree(mem, tree, v, d);
      AllOpen(mem, tree, v, d - 1);
      assert OpenLink(Entry(mem, tree[Prefix(v, d - 1)], Index(v, d - 1)), true);
      OpenRestricts(RightsTo(mem, tree, v, d - 1), CellOf(mem, tree, v, d - 1), true);
    }
  }

  /** The page just mapped has the rights that its way had before. */
  lemma MappedRights(mem: Memory, mem': Memory, tree': Tree, v: Word, phys: Word, flags: Word)
    requires Wf(mem', tree') && Prefix(v, 3) in tree' && SameWays(mem, mem', tree'[[]], 3, true)
    ensures forall w :: SamePage(v, w) ==>
              Mapped(mem', tree', phys, flags, w) == NewPage(WayRights(mem, tree'[[]], w, 3, true), phys, flags, w)
  {
    hide Wf, Prefix, Mapped, NewPage, WayRights, SamePage;
    RootIn(mem', tree');
    forall w | SamePage(v, w)
      ensures Mapped(mem', tree', phys, flags, w) == NewPage(WayRights(mem, tree'[[]], w, 3, true), phys, flags, w)
    {
      SamePageSamePath(v, w);
      PrefixZero(v);
      PrefixZero(w);
      SamePrefix(v, w);
      WayComplete(mem', tree', w, 3, true);
      NewPageIs(mem', tree', phys, flags, w);
    }
  }

  lemma SamePrefix(v: Word, w: Word)
    requires Prefix(w, 4) == Prefix(v, 4)
    ensures Prefix(w, 3) == Prefix(v, 3)
  {
    hide Prefix;
    PrefixZero(v);
    PrefixZero(w);
    assert Prefix(v, 4)[..3] == Prefix(v, 3) && Prefix(w, 4)[..3] == Prefix(w, 3);
  }

  /** A page of a 2 MB entry that maps its range to itself with such flags. */
  function IdentityPage(r: Rights, flags: Word, w: Word): Translation {
    Hit(w & 0xFFFF_FFFF_FFFF,
        Rights(r.write && flags & 0x2 != 0, r.user && flags & 0x4 != 0, r.noExec || flags & 0x8000_0000_0000_0000 != 0))
  }

  lemma KernelTableOpen()
    ensures LinkFlags(KERNEL_TABLE) && OpenLink(KERNEL_TABLE, false)
  {
  }

  lemma TableFlagsOpen()
    ensures LinkFlags(TABLE_FLAGS) && OpenLink(TABLE_FLAGS, true)
  {
  }

  lemma RootIn(mem: Memory, tree: Tree)
    requires Wf(mem, tree)
    ensures [] in tree && forall q :: q in tree ==> tree[q] in mem
  {
    hide Cells;
  }

  /** Every way leaves all rights. */
  ghost predicate Open(mem: Memory, root: nat) {
    forall v :: WayRights(mem, root, v, 3, true) == Rights(true, true, false)
  }

  lemma NewOpen(mem: Memory, root: nat)
    requires root in mem && mem[root] == ZeroTable()
    ensures Open(mem, root)
  {
    hide WayRights, ZeroTable;
    forall v ensures WayRights(mem, root, v, 3, true) == Rights(true, true, false) {
      WayOfNew(mem, root, v, 3, true);
    }
  }

  lemma StaysOpen(mem: Memory, mem': Memory, root: nat)
    requires Open(mem, root) && SameWays(mem, mem', root, 3, true)
    ensures Open(mem', root)
  {
    hide WayRights;
  }
}
