/** Identity mapping by 2 MB pages. */
module Identity {
  import opened Units
  import opened Words
  import opened Paging
  import opened Mapping
  import opened Ways

  const BIG: nat := 0x20_0000 // bytes of a 2 MB page

  /** w's page lies in the byte range [lo, hi), both ends page aligned. */
  ghost predicate Within(lo: nat, hi: nat, w: Word) { lo / PAGE_SIZE <= Frame(w) < hi / PAGE_SIZE }

  /** The word for the address of a page. */
  function AddressWord(addr: nat): Word
    requires addr / PAGE_SIZE < FRAME_LIMIT
  {
    FrameWord(addr / PAGE_SIZE)
  }

  function BigEntry(addr: Word, extra: Word): Word {
    BigPage(addr) | PRESENT | HUGE | extra
  }

  lemma BigEntryBits(addr: Word, extra: Word, w: Word)
    requires extra & PAGE_MASK == 0 && BigPage(addr) == BigPage(w)
    ensures var e := BigEntry(addr, extra);
            Present(e) && Huge(e) && e & PAGE_MASK & OffsetMask(2) == 0 && LeafPhys(2, e, w) == w & 0xFFFF_FFFF_FFFF
  {
  }

  lemma BigEntryRights(addr: Word, extra: Word)
    ensures var e := BigEntry(addr, extra);
            e & USER == extra & USER && e & WRITABLE == extra & WRITABLE && e & NO_EXEC == extra & NO_EXEC
  {
    BigPageFlags(addr);
  }

  lemma BigPageFlags(addr: Word)
    ensures BigPage(addr) & 0xFFF == 0 && BigPage(addr) & NO_EXEC == 0
  {
  }

  lemma SameBigWithin(addr: nat, w: Word)
    requires addr % BIG == 0 && addr < 0x8000_0000_0000
    ensures SameBig(AddressWord(addr), w) <==> Within(addr, addr + BIG, w)
  {
    hide SameBig, Index, FrameWord;
    var v := AddressWord(addr);
    FrameRoundTrip(addr / PAGE_SIZE);
    SameBigIndices(v, w);
    BigNumber(Index(v, 0), Index(v, 1), Index(v, 2), Index(v, 3));
    BigNumber(Index(w, 0), Index(w, 1), Index(w, 2), Index(w, 3));
    BigRange(addr, Frame(w));
  }

  lemma SameBigIndices(v: Word, w: Word)
    ensures SameBig(v, w) <==> Index(v, 0) == Index(w, 0) && Index(v, 1) == Index(w, 1) && Index(v, 2) == Index(w, 2)
  {
    IndicesNameBigPage(v, w);
  }

  lemma BigNumber(a: nat, b: nat, c: nat, d: nat)
    requires a < 512 && b < 512 && c < 512 && d < 512
    ensures var n := ((a * 512 + b) * 512 + c) * 512 + d;
            n / 512 == (a * 512 + b) * 512 + c && n / 0x800_0000 == a && n / 0x4_0000 % 512 == b && n / 512 % 512 == c
  {
    Digits(a, b, c, d);
  }

  lemma BigRange(addr: nat, f: nat)
    requires addr % BIG == 0
    ensures addr / PAGE_SIZE / 512 == f / 512 <==> addr / PAGE_SIZE <= f < (addr + BIG) / PAGE_SIZE
  {
    var q := addr / BIG;
    assert addr / PAGE_SIZE == 512 * q && (addr + BIG) / PAGE_SIZE == 512 * q + 512;
  }

  /** Addresses of one 512 GB share the root entry. */
  lemma RootEntry(addr: nat)
    requires addr < 0x1_0000_0000_0000
    ensures Index(AddressWord(addr), 0) == addr / 0x80_0000_0000
  {
    var n := addr / PAGE_SIZE;
    hide Index, Frame, FrameWord;
    FrameRoundTrip(n);
    TopIndex(FrameWord(n));
    RootShare(addr);
  }

  lemma TopIndex(v: Word)
    ensures Index(v, 0) == Frame(v) / 0x800_0000
  {
    hide Index;
    Digits(Index(v, 0), Index(v, 1), Index(v, 2), Index(v, 3));
  }

  lemma RootShare(addr: nat)
    ensures addr / PAGE_SIZE / 0x800_0000 == addr / 0x80_0000_0000
  {
  }

  lemma GiantHits(mem: Memory, tree: Tree, v: Word)
    requires Wf(mem, tree) && Giant(mem, tree, v)
    ensures Walk(mem, tree[[]], v).Hit?
  {
    hide Cells, Walk, Huge, Present, LeafPhys, Restrict;
    EntryFacts(mem, tree, Prefix(v, 1), Index(v, 1));
    Along(mem, mem, tree, Prefix(v, 1), Index(v, 1), v, 1);
  }

  /** Writing one 2 MB identity entry where no page table hangs. */
  lemma BigWrite(mem: Memory, tree: Tree, addr: Word, extra: Word, w: Word)
    requires Wf(mem, tree) && Prefix(addr, 2) in tree && Prefix(addr, 3) !in tree && extra & PAGE_MASK == 0
    ensures var mem' := SetEntry(mem, tree[Prefix(addr, 2)], Index(addr, 2), BigEntry(addr, extra));
            && Wf(mem', tree)
            && Walk(mem', tree[[]], w) ==
               if SameBig(addr, w) then IdentityPage(RightsTo(mem, tree, w, 2), extra, w) else Walk(mem, tree[[]], w)
  {
    var p, i, e := Prefix(addr, 2), Index(addr, 2), BigEntry(addr, extra);
    var mem' := SetEntry(mem, tree[p], i, e);
    hide Cells, Walk, Huge, Present, LeafPhys, Restrict, BigEntry, SameBig, Frame, IdentityPage, Index;
    PrefixZero(addr);
    BigCellOk(tree, addr, extra);
    StepCell(mem, tree, p, i, e);
    Effect(mem, mem', tree, p, i, w);
    SameBigSamePath(addr, w);
    if SameBig(addr, w) {
      BigResolves(mem', tree[[]], addr, extra, w, RightsTo(mem, tree, w, 2));
    }
  }

  lemma BigCellOk(tree: Tree, addr: Word, extra: Word)
    requires Prefix(addr, 3) !in tree && extra & PAGE_MASK == 0
    ensures CellOk(tree, Prefix(addr, 2), Index(addr, 2), BigEntry(addr, extra))
  {
    hide Index, Prefix, BigEntry;
    PrefixZero(addr);
    BigEntryBits(addr, extra, addr);
  }

  lemma BigResolves(mem: Memory, rt: nat, addr: Word, extra: Word, w: Word, r: Rights)
    requires extra & PAGE_MASK == 0 && SameBig(addr, w)
    requires Walk(mem, rt, w) == Resolve(mem, 2, BigEntry(addr, extra), w, r)
    ensures Walk(mem, rt, w) == IdentityPage(r, extra, w)
  {
    hide BigEntry, LeafPhys, Walk;
    BigEntryBits(addr, extra, w);
    BigEntryRights(addr, extra);
  }

  /** Neither a 1 GB page nor a page table lies under the range; 2 MB pages may. */
  ghost predicate Replaceable(mem: Memory, tree: Tree, lo: nat, hi: nat) {
    forall w :: Within(lo, hi, w) ==> !Giant(mem, tree, w) && Prefix(w, 3) !in tree
  }

  /** No address has come under a 1 GB page. */
  ghost predicate NoNewGiant(mem: Memory, tree: Tree, mem': Memory, tree': Tree) {
    forall v :: Giant(mem', tree', v) ==> Giant(mem, tree, v)
  }

  /** The tables added are pointer tables and directories, not page tables. */
  ghost predicate NoNewPageTable(tree: Tree, tree': Tree) {
    forall q :: q in tree' && q !in tree ==> |q| < 3
  }

  lemma OnlyBelowTrivial(tree: Tree, i0: nat)
    ensures OnlyBelow(tree, tree, i0)
  {
  }

  lemma OnlyBelowTransitive(t0: Tree, t1: Tree, t2: Tree, i0: nat)
    requires OnlyBelow(t0, t1, i0) && OnlyBelow(t1, t2, i0)
    ensures OnlyBelow(t0, t2, i0)
  {
  }

  lemma ReplaceableAt(mem: Memory, tree: Tree, addr: nat)
    requires addr % BIG == 0 && addr < 0x8000_0000_0000 && Replaceable(mem, tree, addr, addr + BIG)
    ensures !Giant(mem, tree, AddressWord(addr)) && Prefix(AddressWord(addr), 3) !in tree
  {
    var v := AddressWord(addr);
    hide Giant, Prefix, FrameWord;
    SameBigWithin(addr, v);
  }

  /** A 1 GB page is what translates an address without a page directory. */
  lemma GiantIs(mem: Memory, tree: Tree, v: Word)
    requires Wf(mem, tree)
    ensures Giant(mem, tree, v) <==> Walk(mem, tree[[]], v).Hit? && Prefix(v, 2) !in tree
  {
    hide Cells, Walk, Huge, Present, LeafPhys, Restrict, Index, Frame;
    PrefixZero(v);
    EntryFacts(mem, tree, [], Index(v, 0));
    if Prefix(v, 1) in tree {
      EntryFacts(mem, tree, Prefix(v, 1), Index(v, 1));
      if Giant(mem, tree, v) {
        GiantHits(mem, tree, v);
      } else if Prefix(v, 2) !in tree {
        AbsentFaults(mem, tree, v, 1);
      }
    } else {
      AbsentFaults(mem, tree, v, 0);
    }
  }

  /** Growth brings no 1 GB page. */
  lemma GrownNoGiant(mem: Memory, tree: Tree, taken: set<nat>, mem': Memory, tree': Tree, taken': set<nat>)
    requires Wf(mem, tree) && Grown(mem, tree, taken, mem', tree', taken')
    ensures NoNewGiant(mem, tree, mem', tree')
  {
    hide Walk, Giant, Cells, Prefix;
    forall v | Giant(mem', tree', v) ensures Giant(mem, tree, v) {
      GiantIs(mem', tree', v);
      GiantIs(mem, tree, v);
    }
  }

  /** Nor does an entry of a page directory. */
  lemma DirectoryNoGiant(mem: Memory, tree: Tree, p: Path, i: nat, e: Word)
    requires Shape(mem, tree) && p in tree && |p| == 2 && i < 512
    ensures NoNewGiant(mem, tree, SetEntry(mem, tree[p], i, e), tree)
  {
    hide Huge, Index;
  }

  lemma NoNewGiantTransitive(m0: Memory, t0: Tree, m1: Memory, t1: Tree, m2: Memory, t2: Tree)
    requires NoNewGiant(m0, t0, m1, t1) && NoNewGiant(m1, t1, m2, t2)
    ensures NoNewGiant(m0, t0, m2, t2)
  {
    hide Giant;
  }

  lemma NoNewGiantTrivial(mem: Memory, tree: Tree)
    ensures NoNewGiant(mem, tree, mem, tree)
  {
    hide Giant;
  }

  /** The effect of identity mapping [lo, hi): every address of the range means itself, with the
      rights that the flags and the tables already linked above leave it, and none for users under
      a table linked now; every other address means what it meant. */
  ghost predicate IdentityEffect(mem: Memory, root: nat, lo: nat, hi: nat, extra: Word, mem': Memory) {
    && SameWays(mem, mem', root, 2, false)
    && forall w :: Walk(mem', root, w) ==
         if Within(lo, hi, w) then IdentityPage(WayRights(mem, root, w, 2, false), extra, w) else Walk(mem, root, w)
  }

  lemma GrownIdentity(mem: Memory, tree: Tree, taken: set<nat>, mem': Memory, tree': Tree, taken': set<nat>, addr: nat,
                      extra: Word)
    requires [] in tree && Grown(mem, tree, taken, mem', tree', taken') && SameWays(mem, mem', tree[[]], 2, false)
    ensures IdentityEffect(mem, tree[[]], addr, addr, extra, mem')
  {
    hide Walk, Wf, WayRights, SameWays;
  }

  lemma BigWriteAll(mem: Memory, mem': Memory, tree: Tree, addr: nat, extra: Word)
    requires addr % BIG == 0 && addr < 0x8000_0000_0000 && extra & PAGE_MASK == 0
    requires Wf(mem', tree) && IdentityEffect(mem, tree[[]], addr, addr, extra, mem')
    requires Prefix(AddressWord(addr), 2) in tree && Prefix(AddressWord(addr), 3) !in tree
    ensures var v := AddressWord(addr);
            var mem'' := SetEntry(mem', tree[Prefix(v, 2)], Index(v, 2), BigEntry(v, extra));
            Wf(mem'', tree) && IdentityEffect(mem, tree[[]], addr, addr + BIG, extra, mem'')
  {
    hide Walk, Cells, Prefix, Index, AddressWord, BigEntry, IdentityPage, SetEntry, SameBig, WayRights, SameWays;
    var v := AddressWord(addr);
    var mem'' := SetEntry(mem', tree[Prefix(v, 2)], Index(v, 2), BigEntry(v, extra));
    BigWrite(mem', tree, v, extra, v);
    PrefixZero(v);
    LeafKeepsWays(mem', tree, Prefix(v, 2), Index(v, 2), BigEntry(v, extra), 2, false);
    SameWaysTransitive(mem, mem', mem'', tree[[]], 2, false);
    forall w ensures Walk(mem'', tree[[]], w) ==
                     if Within(addr, addr + BIG, w) then IdentityPage(WayRights(mem, tree[[]], w, 2, false), extra, w)
                     else Walk(mem, tree[[]], w)
    {
      BigWrite(mem', tree, v, extra, w);
      SameBigWithin(addr, w);
      assert !Within(addr, addr, w);
      if SameBig(v, w) {
        BigWay(mem, mem', tree, v, w);
      }
    }
  }

  lemma BigWay(mem: Memory, mem': Memory, tree: Tree, v: Word, w: Word)
    requires Wf(mem', tree) && Prefix(v, 2) in tree && SameBig(v, w) && SameWays(mem, mem', tree[[]], 2, false)
    ensures WayRights(mem, tree[[]], w, 2, false) == RightsTo(mem', tree, w, 2)
  {
    hide Wf, Prefix, WayRights, SameBig;
    SameBigSamePath(v, w);
    SameUpper(v, w);
    RootIn(mem', tree);
    WayComplete(mem', tree, w, 2, false);
  }

  lemma IdentityExtends(m0: Memory, m1: Memory, m2: Memory, root: nat, lo: nat, a: nat, b: nat, extra: Word)
    requires lo <= a <= b && IdentityEffect(m0, root, lo, a, extra, m1) && IdentityEffect(m1, root, a, b, extra, m2)
    ensures IdentityEffect(m0, root, lo, b, extra, m2)
  {
    hide Walk, Frame, WayRights, IdentityPage;
  }

  /** What could be replaced still can be. */
  lemma StillReplaceable(m0: Memory, t0: Tree, m1: Memory, t1: Tree, lo: nat, hi: nat, a: nat, b: nat)
    requires lo <= a <= b <= hi && Replaceable(m0, t0, lo, hi)
    requires NoNewGiant(m0, t0, m1, t1) && NoNewPageTable(t0, t1)
    ensures Replaceable(m1, t1, a, b)
  {
    hide Giant, Frame, Within;
    forall w | Within(a, b, w) ensures !Giant(m1, t1, w) && Prefix(w, 3) !in t1 {
      WithinMore(lo, hi, a, b, w);
      PrefixLength(w);
    }
  }

  lemma WithinMore(lo: nat, hi: nat, a: nat, b: nat, w: Word)
    requires lo <= a <= b <= hi && Within(a, b, w)
    ensures Within(lo, hi, w)
  {
    hide Frame;
    Quotients(lo, a);
    Quotients(b, hi);
  }

  lemma Quotients(a: nat, b: nat)
    requires a <= b
    ensures a / PAGE_SIZE <= b / PAGE_SIZE
  {
  }

  lemma PrefixLength(w: Word)
    ensures |Prefix(w, 3)| == 3
  {
  }

  lemma NoNewTransitive(t0: Tree, t1: Tree, t2: Tree)
    requires NoNewPageTable(t0, t1) && NoNewPageTable(t1, t2)
    ensures NoNewPageTable(t0, t2)
  {
  }

  /** The whole 2 MB pages that meet [start, end). */
  function RangeStart(start: nat): nat { start / BIG * BIG }
  function RangeEnd(end: nat): nat { (end + BIG - 1) / BIG * BIG }

  lemma NextPage(addr: nat, start: nat, end: nat)
    requires addr % BIG == 0 && RangeStart(start) <= addr < end <= 0x8000_0000_0000
    requires RangeStart(start) / 0x80_0000_0000 == (end - 1) / 0x80_0000_0000
    ensures addr + BIG <= RangeEnd(end) && (addr + BIG) % BIG == 0
    ensures addr / 0x80_0000_0000 == RangeStart(start) / 0x80_0000_0000
  {
  }

  lemma NoNewTrivial(tree: Tree)
    ensures NoNewPageTable(tree, tree)
  {
  }

  lemma IdentityNone(mem: Memory, root: nat, addr: nat, extra: Word)
    ensures IdentityEffect(mem, root, addr, addr, extra, mem)
  {
    hide Walk, WayRights;
  }

  // ---------- what the tables and leaves look like ----------

  /** The link to every table below the root lacks the user bit. */
  ghost predicate NoUserLinks(mem: Memory, tree: Tree) {
    forall q, i: nat :: q in tree && q + [i] in tree ==> Entry(mem, tree[q], i) & USER == 0
  }

  lemma NoLinksYet(mem: Memory, root: nat)
    ensures NoUserLinks(mem, map[[] := root])
  {
  }

  /** Hooking in a table without the user bit keeps that so. */
  lemma NoUserLinksLinked(mem: Memory, tree: Tree, p: Path, i: nat, g: nat, e: Word)
    requires LinkOk(mem, tree, p, i, g, ZeroTable(), e) && NoUserLinks(mem, tree) && e & USER == 0
    ensures NoUserLinks(Linked(mem, tree, p, i, g, ZeroTable(), e), tree[p + [i] := g])
  {
    hide Linked, ZeroTable, Cells, Frame, Present, Huge;
    var mem', tree' := Linked(mem, tree, p, i, g, ZeroTable(), e), tree[p + [i] := g];
    forall q, j: nat | q in tree' && q + [j] in tree' ensures Entry(mem', tree'[q], j) & USER == 0 {
      LinkIn(mem, tree, p, i, g, e, q, j);
    }
  }

  lemma LinkIn(mem: Memory, tree: Tree, p: Path, i: nat, g: nat, e: Word, q: Path, j: nat)
    requires LinkOk(mem, tree, p, i, g, ZeroTable(), e) && NoUserLinks(mem, tree) && e & USER == 0
    requires var tree' := tree[p + [i] := g]; q in tree' && q + [j] in tree'
    ensures Entry(Linked(mem, tree, p, i, g, ZeroTable(), e), tree[p + [i] := g][q], j) & USER == 0
  {
    hide Cells, Frame, ZeroTable, Present, Huge;
    PathEnds(q, j, p, i);
    if q == p + [i] {
      NoGrandchild(mem, tree, p, i, j);
    } else if !(q == p && j == i) {
      ChildIndex(mem, tree, q, j);
      assert Entry(mem, tree[q], j) & USER == 0;
      LinkElsewhere(mem, tree, p, i, g, ZeroTable(), e);
    }
  }

  lemma ChildIndex(mem: Memory, tree: Tree, q: Path, j: nat)
    requires Shape(mem, tree) && q + [j] in tree
    ensures j < 512
  {
    assert (q + [j])[|q + [j]| - 1] == j;
  }

  lemma NoGrandchild(mem: Memory, tree: Tree, p: Path, i: nat, j: nat)
    requires Shape(mem, tree) && p + [i] !in tree
    ensures p + [i] + [j] !in tree && p + [i] + [j] != p + [i]
  {
    var q := p + [i] + [j];
    assert q[..|q| - 1] == p + [i];
  }

  /** Writing a cell that links no table leaves the links alone. */
  lemma NoUserLinksLeaf(mem: Memory, tree: Tree, p: Path, i: nat, e: Word)
    requires Wf(mem, tree) && p in tree && i < 512 && p + [i] !in tree && NoUserLinks(mem, tree)
    ensures NoUserLinks(SetEntry(mem, tree[p], i, e), tree)
  {
    hide Cells;
    var mem' := SetEntry(mem, tree[p], i, e);
    forall q, j: nat | q in tree && q + [j] in tree ensures Entry(mem', tree[q], j) & USER == 0 {
      assert !(q == p && j == i);
      assert Entry(mem', tree[q], j) == Entry(mem, tree[q], j);
    }
  }

  /** The 2 MB page of v is the large entry that identity_map_2mb writes. */
  ghost predicate BigLeaf(mem: Memory, tree: Tree, v: Word, extra: Word) {
    Prefix(v, 2) in tree && tree[Prefix(v, 2)] in mem && Prefix(v, 3) !in tree &&
    mem[tree[Prefix(v, 2)]][Index(v, 2)] == BigEntry(v, extra)
  }

  /** What the large entry for addr does to everything that the loop keeps. */
  lemma BigStored(m0: Memory, t0: Tree, mem: Memory, tree: Tree, addr: nat, extra: Word)
    requires addr % BIG == 0 && addr < 0x8000_0000_0000 && extra & PAGE_MASK == 0
    requires Wf(mem, tree) && IdentityEffect(m0, tree[[]], addr, addr, extra, mem) && NoNewGiant(m0, t0, mem, tree)
    requires Prefix(AddressWord(addr), 2) in tree && Prefix(AddressWord(addr), 3) !in tree
    ensures var v := AddressWord(addr);
            var mem' := SetEntry(mem, tree[Prefix(v, 2)], Index(v, 2), BigEntry(v, extra));
            && Wf(mem', tree) && IdentityEffect(m0, tree[[]], addr, addr + BIG, extra, mem')
            && (NoUserLinks(mem, tree) ==> NoUserLinks(mem', tree))
            && NoNewGiant(m0, t0, mem', tree) && BigLeaf(mem', tree, v, extra)
  {
    hide Cells, Prefix, AddressWord, IdentityEffect, BigEntry, Index, NoNewGiant, NoUserLinks;
    var v := AddressWord(addr);
    PrefixZero(v);
    BigWriteAll(m0, mem, tree, addr, extra);
    if NoUserLinks(mem, tree) {
      NoUserLinksLeaf(mem, tree, Prefix(v, 2), Index(v, 2), BigEntry(v, extra));
    }
    DirectoryNoGiant(mem, tree, Prefix(v, 2), Index(v, 2), BigEntry(v, extra));
    NoNewGiantTransitive(m0, t0, mem, tree, SetEntry(mem, tree[Prefix(v, 2)], Index(v, 2), BigEntry(v, extra)), tree);
  }
}
