/** The kernel's operations on one address space, as changes of memory and tree:
    growing the tree by empty or split tables, writing and clearing leaf entries. */
module Mapping {
  import opened Words
  import opened Paging

  /** The frames of the tables of a tree. */
  ghost function Tables(tree: Tree): set<nat> {
    set p | p in tree :: tree[p]
  }

  /** What an operation that only adds tables may do: the tree stays well formed and
      only grows, every address keeps its meaning, and the frames taken from the
      allocator are exactly the new tables. */
  ghost predicate Grown(mem: Memory, tree: Tree, taken: set<nat>, mem': Memory, tree': Tree, taken': set<nat>)
    requires [] in tree
  {
    && Wf(mem', tree')
    && (forall p :: p in tree ==> p in tree' && tree'[p] == tree[p])
    && (forall w :: Walk(mem', tree[[]], w) == Walk(mem, tree[[]], w))
    && taken <= taken'
    && taken' - taken == Tables(tree') - Tables(tree)
  }

  lemma TablesGrow(t0: Tree, t1: Tree)
    requires forall p :: p in t0 ==> p in t1 && t1[p] == t0[p]
    ensures Tables(t0) <= Tables(t1)
  {
    forall f | f in Tables(t0) ensures f in Tables(t1) {
      var p :| p in t0 && t0[p] == f;
      assert p in t1 && t1[p] == f;
    }
  }

  lemma GrownTransitive(m0: Memory, t0: Tree, u0: set<nat>, m1: Memory, t1: Tree, u1: set<nat>,
                        m2: Memory, t2: Tree, u2: set<nat>)
    requires [] in t0 && Grown(m0, t0, u0, m1, t1, u1) && Grown(m1, t1, u1, m2, t2, u2)
    ensures Grown(m0, t0, u0, m2, t2, u2)
  {
    hide Wf, Walk;
    TablesGrow(t0, t1);
    TablesGrow(t1, t2);
    hide Tables;
    assert t1[[]] == t0[[]];
    assert u2 - u0 == (u2 - u1) + (u1 - u0);
    assert Tables(t2) - Tables(t0) == (Tables(t2) - Tables(t1)) + (Tables(t1) - Tables(t0));
    forall w ensures Walk(m2, t0[[]], w) == Walk(m0, t0[[]], w) {
      assert Walk(m2, t1[[]], w) == Walk(m1, t1[[]], w);
    }
  }

  lemma TablesOfLinked(tree: Tree, q: Path, g: nat)
    requires q !in tree
    ensures Tables(tree[q := g]) == Tables(tree) + {g}
  {
    var tree' := tree[q := g];
    assert tree'[q] == g;
    assert forall p :: p in tree ==> p in tree' && tree'[p] == tree[p];
    TablesGrow(tree, tree');
  }

  lemma GrownByLink(mem: Memory, tree: Tree, taken: set<nat>, p: Path, i: nat, g: nat, t: Table, e: Word)
    requires LinkOk(mem, tree, p, i, g, t, e) && [] in tree && g !in taken
    requires forall w :: Walk(Linked(mem, tree, p, i, g, t, e), tree[[]], w) == Walk(mem, tree[[]], w)
    ensures Grown(mem, tree, taken, Linked(mem, tree, p, i, g, t, e), tree[p + [i] := g], taken + {g})
  {
    hide Wf, Walk, Linked, Present, Huge, Frame;
    assert g !in Tables(tree);
    LinkKeepsWf(mem, tree, p, i, g, t, e);
    TablesOfLinked(tree, p + [i], g);
    hide Tables;
  }

  /** Flags an intermediate table may be linked with. */
  ghost predicate LinkFlags(flags: Word) {
    flags & PAGE_MASK == 0 && Present(flags) && !Huge(flags)
  }

  lemma EmptyLinkOk(mem: Memory, tree: Tree, p: Path, i: nat, g: nat, flags: Word)
    requires Wf(mem, tree) && p in tree && |p| < 3 && i < 512 && !Present(mem[tree[p]][i])
    requires Fresh(tree, g) && LinkFlags(flags)
    ensures LinkOk(mem, tree, p, i, g, ZeroTable(), Link(g, flags))
  {
    assert CellOk(tree, p, i, mem[tree[p]][i]);
    hide Frame, Link;
    LinkWord(g, flags);
  }

  lemma GrownByEmptyTable(mem: Memory, tree: Tree, taken: set<nat>, p: Path, i: nat, g: nat, flags: Word)
    requires Wf(mem, tree) && p in tree && |p| < 3 && i < 512 && !Present(mem[tree[p]][i])
    requires Fresh(tree, g) && g !in taken && LinkFlags(flags)
    ensures Grown(mem, tree, taken, Linked(mem, tree, p, i, g, ZeroTable(), Link(g, flags)), tree[p + [i] := g],
                  taken + {g})
  {
    hide Walk, Linked, CellOk, Frame, Link, ZeroTable, LinkOk, Grown, Present, Huge;
    EmptyLinkOk(mem, tree, p, i, g, flags);
    forall w ensures Walk(Linked(mem, tree, p, i, g, ZeroTable(), Link(g, flags)), tree[[]], w) ==
        Walk(mem, tree[[]], w) {
      EmptyLinkKeepsMeaning(mem, tree, p, i, g, Link(g, flags), w);
    }
    GrownByLink(mem, tree, taken, p, i, g, ZeroTable(), Link(g, flags));
  }

  lemma GrownBySplit(mem: Memory, tree: Tree, taken: set<nat>, p: Path, i: nat, g: nat)
    requires Wf(mem, tree) && p in tree && |p| == 2 && i < 512 && Huge(mem[tree[p]][i])
    requires Fresh(tree, g) && g !in taken
    ensures var h := mem[tree[p]][i];
            Grown(mem, tree, taken, Linked(mem, tree, p, i, g, SplitTable(h), Link(g, SplitLinkFlags(h))),
                  tree[p + [i] := g], taken + {g})
  {
    hide Walk, Linked, CellOk, Frame, Link, SplitTable, SplitLinkFlags, LinkOk, Grown, Huge;
    var h := mem[tree[p]][i];
    SplitLinkOk(mem, tree, p, i, g);
    forall w ensures Walk(Linked(mem, tree, p, i, g, SplitTable(h), Link(g, SplitLinkFlags(h))), tree[[]], w) ==
        Walk(mem, tree[[]], w) {
      SplitKeepsMeaning(mem, tree, p, i, g, w);
    }
    GrownByLink(mem, tree, taken, p, i, g, SplitTable(h), Link(g, SplitLinkFlags(h)));
  }

  lemma GrownFacts(mem: Memory, tree: Tree, taken: set<nat>, mem': Memory, tree': Tree, taken': set<nat>)
    requires [] in tree && Grown(mem, tree, taken, mem', tree', taken')
    ensures Wf(mem', tree') && [] in tree' && tree'[[]] == tree[[]]
    ensures forall p :: p in tree' ==> tree'[p] in mem'
  {
  }

  /** The frames taken between two states are exactly the new tables. */
  ghost predicate Accounted(taken: set<nat>, tree: Tree, taken': set<nat>, tree': Tree) {
    && taken' == taken + (Tables(tree') - Tables(tree))
    && taken !! (Tables(tree') - Tables(tree))
    && Tables(tree) <= Tables(tree')
  }

  lemma GrownAccounted(mem: Memory, tree: Tree, taken: set<nat>, mem': Memory, tree': Tree, taken': set<nat>)
    requires [] in tree && Grown(mem, tree, taken, mem', tree', taken')
    ensures Accounted(taken, tree, taken', tree')
  {
    TablesGrow(tree, tree');
    hide Tables;
  }

  lemma AccountedTransitive(u0: set<nat>, t0: Tree, u1: set<nat>, t1: Tree, u2: set<nat>, t2: Tree)
    requires Accounted(u0, t0, u1, t1) && Accounted(u1, t1, u2, t2)
    ensures Accounted(u0, t0, u2, t2)
  {
    hide Tables;
    assert Tables(t2) - Tables(t0) == (Tables(t2) - Tables(t1)) + (Tables(t1) - Tables(t0));
  }

  lemma AccountedReflexive(u: set<nat>, t: Tree)
    ensures Accounted(u, t, u, t)
  {
  }

  lemma GrownReflexive(mem: Memory, tree: Tree, taken: set<nat>)
    requires Wf(mem, tree)
    ensures Grown(mem, tree, taken, mem, tree, taken)
  {
  }

  lemma TreeFrames(mem: Memory, tree: Tree)
    requires Wf(mem, tree)
    ensures forall p :: p in tree ==> 0 < tree[p]
  {
  }

  lemma ChildReached(mem: Memory, tree: Tree, p: Path, i: nat)
    requires Wf(mem, tree) && p in tree && i < 512 && p + [i] in tree
    ensures tree[p + [i]] in mem && Frame(mem[tree[p]][i]) == tree[p + [i]]
  {
    assert CellOk(tree, p, i, mem[tree[p]][i]);
  }

  /** The leaf entry map_page writes. */
  function MapEntry(phys: Word, flags: Word): Word {
    (phys & PAGE_MASK) | PRESENT | flags
  }

  lemma MapEntryBits(phys: Word, flags: Word, w: Word)
    requires flags & (PAGE_MASK | HUGE) == 0
    ensures var e := MapEntry(phys, flags);
            && Present(e) && !Huge(e) && LeafPhys(3, e, w) == (phys & PAGE_MASK) | (w & 0xFFF)
            && e & WRITABLE == flags & WRITABLE && e & USER == flags & USER && e & NO_EXEC == flags & NO_EXEC
  {
  }

  ghost predicate SamePage(v: Word, w: Word) { v & PAGE_MASK == w & PAGE_MASK }

  lemma SamePageSamePath(v: Word, w: Word)
    ensures Prefix(w, 4) == Prefix(v, 4) <==> SamePage(v, w)
  {
    IndicesNamePage(v, w);
    PrefixZero(v);
    PrefixZero(w);
    hide Index, Prefix;
    assert Prefix(v, 4) == [Index(v, 0), Index(v, 1), Index(v, 2), Index(v, 3)];
    assert Prefix(w, 4) == [Index(w, 0), Index(w, 1), Index(w, 2), Index(w, 3)];
  }

  lemma PrefixZero(v: Word)
    ensures Prefix(v, 0) == []
    ensures forall l :: 0 <= l < 4 ==> Prefix(v, l + 1) == Prefix(v, l) + [Index(v, l)]
  {
  }

  /** What every address of a freshly mapped page means: the frame plus the offset, with
      the flags of the new entry restricted by the tables above it. */
  ghost function Mapped(mem: Memory, tree: Tree, phys: Word, flags: Word, w: Word): Translation {
    Hit((phys & PAGE_MASK) | (w & 0xFFF), Restrict(RightsTo(mem, tree, w, 3), flags))
  }

  lemma MapWriteAt(mem: Memory, tree: Tree, p: Path, i: nat, phys: Word, v: Word, flags: Word, w: Word)
    requires Wf(mem, tree) && p in tree && |p| == 3 && i < 512 && Prefix(v, 4) == p + [i]
    requires flags & (PAGE_MASK | HUGE) == 0
    ensures var mem' := SetEntry(mem, tree[p], i, MapEntry(phys, flags));
            && Wf(mem', tree)
            && Walk(mem', tree[[]], w) ==
                 if SamePage(v, w) then Mapped(mem', tree, phys, flags, w) else Walk(mem, tree[[]], w)
  {
    hide Walk, Cells, Huge, Present, Prefix, SamePage, MapEntry, LeafPhys, RightsTo;
    MapEntryBits(phys, flags, w);
    LeafWrite(mem, tree, p, i, MapEntry(phys, flags), w);
    SamePageSamePath(v, w);
  }

  lemma MapWrite(mem: Memory, tree: Tree, p: Path, i: nat, phys: Word, v: Word, flags: Word)
    requires Wf(mem, tree) && p in tree && |p| == 3 && i < 512 && Prefix(v, 4) == p + [i]
    requires flags & (PAGE_MASK | HUGE) == 0
    ensures var mem' := SetEntry(mem, tree[p], i, MapEntry(phys, flags));
            && Wf(mem', tree)
            && forall w :: Walk(mem', tree[[]], w) ==
                 if SamePage(v, w) then Mapped(mem', tree, phys, flags, w) else Walk(mem, tree[[]], w)
  {
    hide Walk, Cells, Prefix, SamePage, MapEntry, Mapped, SetEntry;
    MapWriteAt(mem, tree, p, i, phys, v, flags, v);
    forall w ensures Walk(SetEntry(mem, tree[p], i, MapEntry(phys, flags)), tree[[]], w) ==
              if SamePage(v, w) then Mapped(SetEntry(mem, tree[p], i, MapEntry(phys, flags)), tree, phys, flags, w)
              else Walk(mem, tree[[]], w)
    {
      MapWriteAt(mem, tree, p, i, phys, v, flags, w);
    }
  }

  lemma TableFlagsOk()
    ensures LinkFlags(TABLE_FLAGS)
  {
  }

  /** v lies in a 1 GB page, which walk_or_create refuses. */
  ghost predicate Giant(mem: Memory, tree: Tree, v: Word) {
    Prefix(v, 1) in tree && tree[Prefix(v, 1)] in mem && Huge(mem[tree[Prefix(v, 1)]][Index(v, 1)])
  }

  lemma AbsentFaults(mem: Memory, tree: Tree, v: Word, l: nat)
    requires Wf(mem, tree) && l < 4 && Prefix(v, l) in tree && !Present(mem[tree[Prefix(v, l)]][Index(v, l)])
    ensures Walk(mem, tree[[]], v) == Fault
  {
    Along(mem, mem, tree, Prefix(v, l), Index(v, l), v, l);
  }

  /** What a well-formed tree says of one entry. */
  lemma EntryFacts(mem: Memory, tree: Tree, p: Path, i: nat)
    requires Wf(mem, tree) && p in tree && i < 512
    ensures var e := mem[tree[p]][i];
            && |p| <= 3
            && (Huge(e) ==> Present(e) && 0 < |p| < 3)
            && (|p| < 3 && Present(e) && !Huge(e) <==> p + [i] in tree)
            && (p + [i] in tree ==> Frame(e) == tree[p + [i]])
  {
    assert CellOk(tree, p, i, mem[tree[p]][i]);
  }

  /** The tables added to the tree all lie under the root's entry i0. */
  ghost predicate OnlyBelow(tree: Tree, tree': Tree, i0: nat) {
    forall q :: q in tree' && q !in tree ==> q != [] && q[0] == i0
  }

  lemma PrefixHead(v: Word, l: nat)
    requires l < 4
    ensures (Prefix(v, l) + [Index(v, l)])[0] == Index(v, 0)
  {
    if l != 0 {
      PrefixHead(v, l - 1);
    }
  }

  // ---------- reading and clearing leaves ----------

  /** v lies in a 2 MB page. */
  ghost predicate Big(mem: Memory, tree: Tree, v: Word) {
    Prefix(v, 2) in tree && tree[Prefix(v, 2)] in mem && Huge(mem[tree[Prefix(v, 2)]][Index(v, 2)])
  }

  ghost predicate SameBig(v: Word, w: Word) { BigPage(v) == BigPage(w) }

  lemma SameBigSamePath(v: Word, w: Word)
    ensures Prefix(w, 3) == Prefix(v, 3) <==> SameBig(v, w)
  {
    IndicesNameBigPage(v, w);
    PrefixZero(v);
    PrefixZero(w);
    hide Index, Prefix;
    assert Prefix(v, 3) == [Index(v, 0), Index(v, 1), Index(v, 2)];
    assert Prefix(w, 3) == [Index(w, 0), Index(w, 1), Index(w, 2)];
  }

  /** The cell (p, i) is where the walk of v ends. */
  ghost predicate LeafAt(mem: Memory, tree: Tree, p: Path, i: nat, v: Word) {
    && Wf(mem, tree) && p in tree && i < 512 && Prefix(v, |p| + 1) == p + [i]
    && (|p| == 3 || (|p| == 2 && Huge(mem[tree[p]][i])))
  }

  /** No table is linked where the walk ends. */
  lemma LeafIsNoLink(mem: Memory, tree: Tree, p: Path, i: nat, v: Word)
    requires LeafAt(mem, tree, p, i, v)
    ensures p + [i] !in tree
  {
    hide Cells, Huge, Present, Frame;
    EntryFacts(mem, tree, p, i);
    assert |p + [i]| == |p| + 1;
  }

  lemma LeafEnds(p: Path, i: nat, v: Word)
    requires |p| <= 3 && Prefix(v, |p| + 1) == p + [i]
    ensures p == Prefix(v, |p|) && i == Index(v, |p|)
  {
    hide Index;
    PathEnds(p, i, Prefix(v, |p|), Index(v, |p|));
  }

  /** Above a table there is no larger page. */
  lemma NoPageAbove(mem: Memory, tree: Tree, v: Word, l: nat)
    requires Wf(mem, tree) && 0 < l <= 3 && Prefix(v, l) in tree
    ensures Prefix(v, l - 1) in tree && tree[Prefix(v, l - 1)] in mem
    ensures !Huge(mem[tree[Prefix(v, l - 1)]][Index(v, l - 1)])
  {
    ParentInTree(mem, tree, v, l);
    hide Cells, Huge, Present, Frame, Index;
    EntryFacts(mem, tree, Prefix(v, l - 1), Index(v, l - 1));
  }

  lemma LeafPath(mem: Memory, tree: Tree, p: Path, i: nat, v: Word)
    requires LeafAt(mem, tree, p, i, v)
    ensures p == Prefix(v, |p|) && i == Index(v, |p|)
    ensures Big(mem, tree, v) <==> |p| == 2
    ensures !Giant(mem, tree, v)
  {
    hide Cells, Huge, Present, Frame, Index, Prefix;
    LeafEnds(p, i, v);
    if |p| == 3 {
      NoPageAbove(mem, tree, v, 3);
    }
    NoPageAbove(mem, tree, v, 2);
  }

  /** Above a page table lies no larger page. */
  lemma SmallPage(mem: Memory, tree: Tree, v: Word)
    requires Wf(mem, tree) && Prefix(v, 3) in tree
    ensures !Giant(mem, tree, v) && !Big(mem, tree, v)
  {
    hide Cells, Huge, Present, Frame, Index, Prefix;
    NoPageAbove(mem, tree, v, 3);
    NoPageAbove(mem, tree, v, 2);
  }

  lemma CellAligned(mem: Memory, tree: Tree, p: Path, i: nat)
    requires Wf(mem, tree) && p in tree && i < 512 && Huge(mem[tree[p]][i])
    ensures mem[tree[p]][i] & PAGE_MASK & OffsetMask(|p|) == 0
  {
    assert CellOk(tree, p, i, mem[tree[p]][i]);
  }

  /** What the walk makes of the leaf it ends at. */
  lemma LeafRead(mem: Memory, tree: Tree, p: Path, i: nat, v: Word)
    requires LeafAt(mem, tree, p, i, v)
    ensures var e := mem[tree[p]][i];
            Walk(mem, tree[[]], v) ==
              if Present(e) then Hit(LeafPhys(|p|, e, v), Restrict(RightsTo(mem, tree, v, |p|), e)) else Fault
  {
    hide Cells, Present, Huge, Walk, LeafPhys, Restrict;
    Effect(mem, mem, tree, p, i, v);
  }

  /** The physical address virt_to_phys should report for v. */
  ghost function PhysOf(mem: Memory, tree: Tree, v: Word): Word
    requires [] in tree
  {
    if Giant(mem, tree, v) then 0
    else match Walk(mem, tree[[]], v) case Fault => 0 case Hit(phys, _) => phys
  }

  /** The physical address virt_to_phys computes from v's leaf entry. */
  function LeafAddress(e: Word, v: Word): Word {
    if !Present(e) then 0
    else if Huge(e) then (e & PAGE_MASK) | (v & 0x1F_FFFF)
    else (e & PAGE_MASK) | (v & 0xFFF)
  }

  lemma SmallLeafAddress(e: Word, v: Word)
    requires Present(e) && !Huge(e)
    ensures LeafAddress(e, v) == LeafPhys(3, e, v)
  {
  }

  lemma BigLeafAddress(e: Word, v: Word)
    requires Present(e) && Huge(e) && e & PAGE_MASK & OffsetMask(2) == 0
    ensures LeafAddress(e, v) == LeafPhys(2, e, v)
  {
    AlignedBase(e & PAGE_MASK);
  }

  lemma AlignedBase(b: Word)
    requires b & 0x1F_FFFF == 0
    ensures b & !0x1F_FFFF == b
  {
  }

  lemma LeafAddressCorrect(mem: Memory, tree: Tree, p: Path, i: nat, v: Word)
    requires LeafAt(mem, tree, p, i, v)
    ensures LeafAddress(mem[tree[p]][i], v) == PhysOf(mem, tree, v)
  {
    hide Cells, Huge, Walk, Restrict, Giant, LeafPhys, OffsetMask, Big;
    var e := mem[tree[p]][i];
    LeafPath(mem, tree, p, i, v);
    LeafRead(mem, tree, p, i, v);
    EntryFacts(mem, tree, p, i);
    if Present(e) {
      if |p| == 2 {
        CellAligned(mem, tree, p, i);
        BigLeafAddress(e, v);
      } else {
        SmallLeafAddress(e, v);
      }
    }
  }

  /** Clearing a leaf: its page, 4 KB or 2 MB, faults, and every other address keeps its meaning. */
  lemma ClearLeaf(mem: Memory, tree: Tree, p: Path, i: nat, v: Word, w: Word)
    requires LeafAt(mem, tree, p, i, v)
    ensures var mem' := SetEntry(mem, tree[p], i, 0);
            && Wf(mem', tree)
            && Walk(mem', tree[[]], w) ==
               if (if |p| == 2 then SameBig(v, w) else SamePage(v, w)) then Fault else Walk(mem, tree[[]], w)
  {
    hide Cells, Present, Huge, Walk, SameBig, SamePage, Frame;
    var mem' := SetEntry(mem, tree[p], i, 0);
    EntryFacts(mem, tree, p, i);
    ZeroCell(tree, p, i);
    assert |p + [i]| == |p| + 1;
    StepCell(mem, tree, p, i, 0);
    Effect(mem, mem', tree, p, i, w);
    SameBigSamePath(v, w);
    SamePageSamePath(v, w);
  }

  /** The memory unmap_page leaves. */
  ghost predicate Unmapped(mem: Memory, tree: Tree, v: Word, mem': Memory)
    requires [] in tree
  {
    forall w :: Walk(mem', tree[[]], w) ==
      if Unmaps(mem, tree, v, w) then Fault else Walk(mem, tree[[]], w)
  }

  ghost predicate Unmaps(mem: Memory, tree: Tree, v: Word, w: Word) {
    !Giant(mem, tree, v) && if Big(mem, tree, v) then SameBig(v, w) else SamePage(v, w)
  }

  lemma UnmapWrite(mem: Memory, tree: Tree, p: Path, i: nat, v: Word)
    requires LeafAt(mem, tree, p, i, v)
    ensures Wf(SetEntry(mem, tree[p], i, 0), tree) && Unmapped(mem, tree, v, SetEntry(mem, tree[p], i, 0))
  {
    hide Cells, Present, Huge, Walk, SameBig, SamePage, Giant, Big;
    LeafPath(mem, tree, p, i, v);
    ClearLeaf(mem, tree, p, i, v, v);
    forall w ensures Walk(SetEntry(mem, tree[p], i, 0), tree[[]], w) ==
                     if Unmaps(mem, tree, v, w) then Fault else Walk(mem, tree[[]], w)
    {
      ClearLeaf(mem, tree, p, i, v, w);
    }
  }

  /** An address that faults, or whose walk is refused, is already unmapped. */
  lemma {:induction false} NothingToUnmap(mem: Memory, tree: Tree, v: Word)
    requires Wf(mem, tree) && (Giant(mem, tree, v) || Walk(mem, tree[[]], v) == Fault)
    ensures Unmapped(mem, tree, v, mem)
  {
    hide Cells, Present, Huge, Walk, Giant, SamePage, SameBig;
    if !Giant(mem, tree, v) {
      forall w | Unmaps(mem, tree, v, w) ensures Walk(mem, tree[[]], w) == Fault {
        SamePageSamePath(v, w);
        SameBigSamePath(v, w);
        FaultShared(mem, tree, v, w);
      }
    }
  }

  lemma FaultShared(mem: Memory, tree: Tree, v: Word, w: Word)
    requires Wf(mem, tree) && Walk(mem, tree[[]], v) == Fault
    requires Prefix(w, 4) == Prefix(v, 4) || (Big(mem, tree, v) && Prefix(w, 3) == Prefix(v, 3))
    ensures Walk(mem, tree[[]], w) == Fault
  {
    if Prefix(w, 4) == Prefix(v, 4) {
      SamePathSameIndices(v, w);
      FaultAlong(mem, 0, Entry(mem, tree[[]], Index(v, 0)), v, w, ALL_RIGHTS, ALL_RIGHTS);
    } else {
      BigHits(mem, tree, v);
    }
  }

  lemma BigHits(mem: Memory, tree: Tree, v: Word)
    requires Wf(mem, tree) && Big(mem, tree, v)
    ensures Walk(mem, tree[[]], v).Hit?
  {
    hide Cells, Huge, Present, Walk, Restrict, LeafPhys;
    assert LeafAt(mem, tree, Prefix(v, 2), Index(v, 2), v);
    LeafRead(mem, tree, Prefix(v, 2), Index(v, 2), v);
    EntryFacts(mem, tree, Prefix(v, 2), Index(v, 2));
  }

  lemma SamePathSameIndices(v: Word, w: Word)
    requires Prefix(w, 4) == Prefix(v, 4)
    ensures forall l :: 0 <= l < 4 ==> Index(w, l) == Index(v, l)
  {
    PrefixZero(v);
    PrefixZero(w);
    hide Prefix, Index;
    assert Prefix(v, 4) == [Index(v, 0), Index(v, 1), Index(v, 2), Index(v, 3)];
    assert Prefix(w, 4) == [Index(w, 0), Index(w, 1), Index(w, 2), Index(w, 3)];
  }

  lemma {:induction false} FaultAlong(mem: Memory, l: nat, e: Word, v: Word, w: Word, r: Rights, r': Rights)
    requires l < 4 && (forall k :: 0 <= k < 4 ==> Index(w, k) == Index(v, k))
    requires Resolve(mem, l, e, v, r) == Fault
    ensures Resolve(mem, l, e, w, r') == Fault
    decreases 4 - l
  {
    if Present(e) && l < 3 {
      FaultAlong(mem, l + 1, Entry(mem, Frame(e), Index(v, l + 1)), v, w, Restrict(r, e), Restrict(r', e));
    }
  }

  /** Addresses of one 2 MB page lie in a 2 MB page together, those of one 4 KB page anyway. */
  lemma SamePageSameKind(mem: Memory, tree: Tree, v: Word, w: Word)
    requires SamePage(v, w) || SameBig(v, w)
    ensures Giant(mem, tree, w) == Giant(mem, tree, v) && Big(mem, tree, w) == Big(mem, tree, v)
  {
    hide SamePage, SameBig, Huge;
    SamePageSamePath(v, w);
    SameBigSamePath(v, w);
    SameUpper(v, w);
  }

  lemma SameUpper(v: Word, w: Word)
    requires Prefix(w, 4) == Prefix(v, 4) || Prefix(w, 3) == Prefix(v, 3)
    ensures Prefix(w, 1) == Prefix(v, 1) && Prefix(w, 2) == Prefix(v, 2)
    ensures Index(w, 1) == Index(v, 1) && Index(w, 2) == Index(v, 2)
  {
    PrefixZero(v);
    PrefixZero(w);
    hide Prefix, Index;
    assert Prefix(v, 3) == [Index(v, 0), Index(v, 1), Index(v, 2)];
    assert Prefix(w, 3) == [Index(w, 0), Index(w, 1), Index(w, 2)];
    assert Prefix(v, 4)[..3] == Prefix(v, 3) && Prefix(w, 4)[..3] == Prefix(w, 3);
  }

  /** The other page next to v in its 2 MB page. */
  function Neighbour(v: Word): Word { v ^ 0x1000 }

  lemma NeighbourApart(v: Word)
    ensures SameBig(v, Neighbour(v)) && !SamePage(v, Neighbour(v))
  {
  }

  /** Exactly the page of v is removed. */
  ghost predicate RemovesPage(mem: Memory, tree: Tree, v: Word, mem': Memory)
    requires [] in tree
  {
    forall w :: Walk(mem', tree[[]], w) == if SamePage(v, w) then Fault else Walk(mem, tree[[]], w)
  }

  /** unmap_page of a mapped address removes exactly its page if and only if the address lies
      neither in a 2 MB nor in a 1 GB page. */
  lemma UnmapExactly(mem: Memory, tree: Tree, v: Word, mem': Memory)
    requires Wf(mem, tree) && Walk(mem, tree[[]], v).Hit? && Unmapped(mem, tree, v, mem')
    ensures RemovesPage(mem, tree, v, mem') <==> !Big(mem, tree, v) && !Giant(mem, tree, v)
  {
    hide Cells, Walk, Giant, Big, SamePage, SameBig;
    if Giant(mem, tree, v) {
      assert Walk(mem', tree[[]], v) == Walk(mem, tree[[]], v);
      assert SamePage(v, v) by {
        SelfPage(v);
      }
    } else if Big(mem, tree, v) {
      var w := Neighbour(v);
      NeighbourApart(v);
      SamePageSameKind(mem, tree, v, w);
      BigHits(mem, tree, w);
      assert Walk(mem', tree[[]], w) == Fault;
    }
  }

  lemma SelfPage(v: Word)
    ensures SamePage(v, v)
  {
  }

  lemma ZeroCell(tree: Tree, p: Path, i: nat)
    requires |p| <= 3 && p + [i] !in tree
    ensures CellOk(tree, p, i, 0) && !Present(0)
  {
  }

  /** A zeroed root table is a well-formed address space in which every address faults. */
  lemma EmptySpace(mem: Memory, g: nat)
    requires g in mem && mem[g] == ZeroTable() && 0 < g < FRAME_LIMIT
    ensures Wf(mem, map[[] := g])
    ensures forall w :: Walk(mem, g, w) == Fault
  {
    var tree: Tree := map[[] := g];
    forall i | 0 <= i < 512 ensures CellOk(tree, [], i, mem[g][i]) {
    }
    forall w ensures Walk(mem, g, w) == Fault {
      assert Entry(mem, g, Index(w, 0)) == 0;
    }
  }
}
