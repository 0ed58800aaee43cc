/** Inputs on which the memory manager falls short of what its comments promise, each reached by
    its own calls on a fresh machine. */
module VmWitness {
  import opened Words
  import opened Paging
  import opened Mapping
  import opened Identity
  import opened UserAccess
  import opened FrameAllocator
  import opened Vm

  function Blank(lo: nat, hi: nat): (m: Memory)
    ensures forall n :: lo <= n < hi ==> n in m
    decreases hi - lo
  {
    if lo >= hi then map[] else Blank(lo, hi - 1)[hi - 1 := ZeroTable()]
  }

  /** A machine with fifteen free frames. */
  method Boot() returns (k: Kernel)
    ensures fresh(k) && fresh(k.frames) && fresh(k.frames.bitmap) && k.Valid() && k.frames.freePages == 15
  {
    hide Marked;
    var frames := new PhysAllocator.Init(0x10_0000, 16);
    k := new Kernel(Blank(0x100, 0x120), frames);
  }

  /** A new address space with its first megabyte identity-mapped, as the ELF loader makes it. */
  method LowMegabyte(k: Kernel, extra: Word) returns (root: nat, ghost tree: Tree)
    requires k.Valid() && k.frames.freePages == 15 && extra & PAGE_MASK == 0
    modifies k`mem, k.frames`freePages, k.frames`firstPage, k.frames.bitmap
    ensures k.Reached(tree, [], root) && root != 0
    ensures NoUserLinks(k.mem, tree) && BigLeaf(k.mem, tree, AddressWord(0), extra)
  {
    hide Walk, k.Reached, k.Taken, NoUserLinks, BigLeaf, Replaceable, NoNewGiant, IdentityEffect, Accounted, OnlyBelow,
         AddressWord;
    root, tree := k.CreateAddressSpace();
    NewSpaceReplaceable(k.mem, root, RangeStart(0), RangeEnd(0x10_0000));
    NoLinksYet(k.mem, root);
    var ok;
    ghost var upto;
    ok, upto, tree := k.IdentityMap2mb(root, 0, 0x10_0000, extra, tree);
  }

  // ---------- the user check ----------

  /** The leaf of a 2 MB page written by identity_map_2mb, for every address of it. */
  lemma BigLeafIs(mem: Memory, tree: Tree, v: Word, extra: Word, w: Word)
    requires Wf(mem, tree) && BigLeaf(mem, tree, v, extra) && SameBig(v, w)
    ensures Big(mem, tree, w) && Prefix(w, 3) !in tree && LeafCell(mem, tree, w) == BigEntry(v, extra)
    ensures !Giant(mem, tree, w) && Prefix(w, 1) in tree
  {
    hide Cells, SameBig, BigEntry, Present, Frame;
    SameBigSamePath(v, w);
    SameUpper(v, w);
    BigEntryHuge(v, extra);
    LeafAtPrefix(mem, tree, w, 2);
    LeafPath(mem, tree, Prefix(w, 2), Index(w, 2), w);
    ParentInTree(mem, tree, w, 2);
  }

  lemma BigEntryHuge(v: Word, extra: Word)
    ensures Huge(BigEntry(v, extra)) && Present(BigEntry(v, extra))
  {
  }

  /** Below a link without the user bit nothing is left for user code. */
  lemma UserLost(mem: Memory, tree: Tree, v: Word)
    requires Wf(mem, tree) && NoUserLinks(mem, tree) && Prefix(v, 1) in tree
    ensures !RightsTo(mem, tree, v, 1).user && !RightsTo(mem, tree, v, 2).user && !RightsTo(mem, tree, v, 3).user
  {
    hide Cells, Index, Frame;
    PrefixZero(v);
    assert [] + [Index(v, 0)] in tree;
    assert CellOf(mem, tree, v, 0) & USER == 0;
    assert !RightsTo(mem, tree, v, 1).user;
    assert !RightsTo(mem, tree, v, 2).user;
  }

  /** After the loader's identity map the check accepts page 0, and the processor keeps user code
      from all of it. */
  method UserCheckNotEnough() returns (k: Kernel, root: nat, mapped: bool)
    ensures mapped
    ensures forall w :: Frame(w) == 0 ==> Walk(k.mem, root, w).Hit? && !UserCan(k.mem, root, w)
  {
    hide Walk, Wf, UserLeaf, Frame, NoUserLinks, BigLeaf, AddressWord, UserCan, UserCanAll, Shift;
    k := Boot();
    ghost var tree;
    root, tree := LowMegabyte(k, 0x6); // writable, user
    LoaderPage(k, root, tree);
    mapped := k.IsUserRangeMapped(root, 0, 0x1000, tree);
  }

  lemma LoaderPage(k: Kernel, root: nat, tree: Tree)
    requires k.Reached(tree, [], root) && NoUserLinks(k.mem, tree) && BigLeaf(k.mem, tree, AddressWord(0), 0x6)
    ensures forall w :: Frame(w) == 0 ==>
              UserLeaf(k.mem, tree, w) && Walk(k.mem, root, w).Hit? && !UserCan(k.mem, root, w)
  {
    hide Cells, Walk, NoUserLinks, BigLeaf, AddressWord, Frame, k.Apart, k.Valid, SameBig, BigEntry, UserLeaf, Big,
         UserCan;
    forall w | Frame(w) == 0 ensures UserLeaf(k.mem, tree, w) && Walk(k.mem, root, w).Hit? && !UserCan(k.mem, root, w) {
      FirstBigPage(w);
      BigLeafIs(k.mem, tree, AddressWord(0), 0x6, w);
      UserBits(k.mem, tree, AddressWord(0), w);
      BigHits(k.mem, tree, w);
      UserReachable(k.mem, tree, w);
      UserLost(k.mem, tree, w);
    }
  }

  lemma FirstBigPage(w: Word)
    requires Frame(w) == 0
    ensures SameBig(AddressWord(0), w)
  {
    hide Frame, SameBig, AddressWord;
    SameBigWithin(0, w);
  }

  lemma UserBits(mem: Memory, tree: Tree, v: Word, w: Word)
    requires LeafCell(mem, tree, w) == BigEntry(v, 0x6)
    ensures UserLeaf(mem, tree, w)
  {
    hide LeafCell, BigEntry;
    BigEntryHuge(v, 0x6);
    BigEntryRights(v, 0x6);
  }

  // ---------- unmapping in a 2 MB page ----------

  /** unmap_page of page 0 in that address space also takes the page beside it. */
  method UnmapTakesMore() returns (k: Kernel, root: nat, ghost before: Memory, ghost tree: Tree, ghost v: Word)
    ensures k.Reached(tree, [], root) && Wf(before, tree)
    ensures Unmapped(before, tree, v, k.mem) && !RemovesPage(before, tree, v, k.mem)
    ensures var w := Neighbour(v);
            !SamePage(v, w) && Walk(before, root, v).Hit? && Walk(before, root, w).Hit? && Walk(k.mem, root, w) == Fault
  {
    hide Walk, BigLeaf, AddressWord, SameBig, SamePage, Big, Giant, NoUserLinks, Wf, Neighbour;
    k := Boot();
    root, tree := LowMegabyte(k, 0x6);
    before := k.mem;
    v := AddressWord(0);
    var page := AddressWord(0);
    NeighbourApart(v);
    SelfBig(v);
    BigLeafIs(before, tree, v, 0x6, v);
    BigLeafIs(before, tree, v, 0x6, Neighbour(v));
    BigHits(before, tree, v);
    BigHits(before, tree, Neighbour(v));
    k.UnmapPage(root, page, tree);
    assert Walk(k.mem, tree[[]], Neighbour(v)) == Fault;
  }

  lemma SelfBig(v: Word)
    ensures SameBig(v, v)
  {
  }

  // ---------- translation in a 1 GB page ----------

  /** An entry that maps the second gigabyte. */
  const GIANT_ENTRY: Word := 0x4000_0083

  lemma GiantBits(v: Word)
    ensures Present(GIANT_ENTRY) && Huge(GIANT_ENTRY) && GIANT_ENTRY & PAGE_MASK & OffsetMask(1) == 0
    ensures LeafPhys(1, GIANT_ENTRY, v) != 0
  {
  }

  /** Tables of the kind firmware leaves behind: v lies in a 1 GB page, is mapped, and
      virt_to_phys answers 0. */
  lemma GiantUnseen(v: Word) returns (mem: Memory, tree: Tree)
    ensures Wf(mem, tree) && Walk(mem, tree[[]], v).Hit? && Walk(mem, tree[[]], v).phys != 0 &&
            PhysOf(mem, tree, v) == 0
  {
    hide Cells, Frame, Link, ZeroTable, Present, Huge, Linked, LinkOk, Walk, Index, Prefix, Restrict, LeafPhys,
         OffsetMask, GIANT_ENTRY;
    var mem0: Memory := map[1 := ZeroTable(), 2 := ZeroTable()];
    var root: Tree := map[[] := 1];
    EmptySpace(mem0, 1);
    ZeroAbsent(Index(v, 0));
    TableFlagsOk();
    EmptyLinkOk(mem0, root, [], Index(v, 0), 2, TABLE_FLAGS);
    var e := Link(2, TABLE_FLAGS);
    var mem1 := Linked(mem0, root, [], Index(v, 0), 2, ZeroTable(), e);
    tree := root[[] + [Index(v, 0)] := 2];
    LinkKeepsWf(mem0, root, [], Index(v, 0), 2, ZeroTable(), e);
    PrefixZero(v);
    var p := Prefix(v, 1);
    GiantCell(tree, p, Index(v, 1));
    StepCell(mem1, tree, p, Index(v, 1), GIANT_ENTRY);
    mem := SetEntry(mem1, tree[p], Index(v, 1), GIANT_ENTRY);
    GiantBits(v);
    Effect(mem, mem, tree, p, Index(v, 1), v);
  }

  lemma ZeroAbsent(i: nat)
    requires i < 512
    ensures !Present(ZeroTable()[i])
  {
  }

  lemma GiantCell(tree: Tree, p: Path, i: nat)
    requires |p| == 1 && p + [i] !in tree
    ensures CellOk(tree, p, i, GIANT_ENTRY)
  {
    hide OffsetMask, Present, Huge, GIANT_ENTRY;
    GiantBits(0);
  }
}
