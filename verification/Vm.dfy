/** The virtual-memory manager over physical memory and the frame allocator. */
module Vm {
  import opened Units
  import opened Words
  import opened Paging
  import opened Mapping
  import opened Ways
  import opened Teardown
  import opened Identity
  import opened UserAccess
  import opened FrameAllocator

  /** A request a process makes of its address space. */
  datatype Request = Map(phys: Word, virt: Word, flags: Word) | Unmap(virt: Word)

  /** Requests concern the lower half; mapping flags carry no address and no HUGE bit. */
  ghost predicate Lawful(r: Request) {
    Index(r.virt, 0) < 256 && (r.Map? ==> r.flags & (PAGE_MASK | HUGE) == 0)
  }

  /** Every table of the tree serves the lower half. */
  ghost predicate Lower(tree: Tree) {
    forall p :: p in tree && p != [] ==> p[0] < 256
  }

  lemma LowerKept(tree: Tree, tree': Tree, i0: nat)
    requires Lower(tree) && OnlyBelow(tree, tree', i0) && i0 < 256
    ensures Lower(tree')
  {
  }

  /** What a process has taken beyond before is its tables. */
  ghost predicate OnlyTables(before: set<nat>, taken: set<nat>, tree: Tree) {
    taken == before + Tables(tree) && before !! Tables(tree)
  }

  lemma OnlyTablesKept(before: set<nat>, taken: set<nat>, tree: Tree, taken': set<nat>, tree': Tree)
    requires OnlyTables(before, taken, tree) && Accounted(taken, tree, taken', tree')
    ensures OnlyTables(before, taken', tree')
  {
    hide Tables;
  }

  lemma OnlyTablesStart(before: set<nat>, root: nat)
    requires root !in before
    ensures OnlyTables(before, before + {root}, map[[] := root])
  {
    var tree: Tree := map[[] := root];
    assert tree[[]] == root;
    assert Tables(tree) == {root};
  }

  /** In an address space with no table below its root everything can be replaced. */
  lemma NewSpaceReplaceable(mem: Memory, root: nat, lo: nat, hi: nat)
    ensures Replaceable(mem, map[[] := root], lo, hi)
  {
    forall w: Word ensures Prefix(w, 3) != [] && Prefix(w, 1) != [] {
      assert |Prefix(w, 3)| == 3 && |Prefix(w, 1)| == 1;
    }
  }

  /** A range to be identity-mapped. */
  datatype Range = Range(start: nat, end: nat, extra: Word)

  /** Inside the lower half and one root entry, with flags that carry no address bits. */
  ghost predicate GoodRange(r: Range) {
    && r.start < 0x8000_0000_0000 && r.end <= 0x8000_0000_0000 && r.extra & PAGE_MASK == 0
    && (RangeStart(r.start) < r.end ==> RangeStart(r.start) / 0x80_0000_0000 == (r.end - 1) / 0x80_0000_0000)
  }

  ghost predicate GoodRanges(rs: seq<Range>) { forall k :: 0 <= k < |rs| ==> GoodRange(rs[k]) }

  /** All the ranges can be replaced. */
  ghost predicate AllReplaceable(mem: Memory, tree: Tree, rs: seq<Range>) {
    forall k :: 0 <= k < |rs| ==> Replaceable(mem, tree, RangeStart(rs[k].start), RangeEnd(rs[k].end))
  }

  lemma NewSpaceAll(mem: Memory, root: nat, rs: seq<Range>)
    ensures AllReplaceable(mem, map[[] := root], rs)
  {
    hide Replaceable;
    forall k | 0 <= k < |rs| ensures Replaceable(mem, map[[] := root], RangeStart(rs[k].start), RangeEnd(rs[k].end)) {
      NewSpaceReplaceable(mem, root, RangeStart(rs[k].start), RangeEnd(rs[k].end));
    }
  }

  lemma RangeFacts(mem: Memory, tree: Tree, rs: seq<Range>, n: nat)
    requires GoodRanges(rs) && AllReplaceable(mem, tree, rs) && n < |rs|
    ensures GoodRange(rs[n]) && Replaceable(mem, tree, RangeStart(rs[n].start), RangeEnd(rs[n].end))
    ensures RangeStart(rs[n].start) / 0x80_0000_0000 < 256
  {
    hide Replaceable;
  }

  lemma AllStillReplaceable(m0: Memory, t0: Tree, m1: Memory, t1: Tree, rs: seq<Range>)
    requires AllReplaceable(m0, t0, rs) && NoNewGiant(m0, t0, m1, t1) && NoNewPageTable(t0, t1)
    ensures AllReplaceable(m1, t1, rs)
  {
    hide Replaceable, NoNewGiant, NoNewPageTable;
    forall k | 0 <= k < |rs| ensures Replaceable(m1, t1, RangeStart(rs[k].start), RangeEnd(rs[k].end)) {
      var lo, hi := RangeStart(rs[k].start), RangeEnd(rs[k].end);
      if lo <= hi {
        StillReplaceable(m0, t0, m1, t1, lo, hi, lo, hi);
      } else {
        NothingWithin(m1, t1, lo, hi);
      }
    }
  }

  lemma NothingWithin(mem: Memory, tree: Tree, lo: nat, hi: nat)
    requires hi <= lo
    ensures Replaceable(mem, tree, lo, hi)
  {
    hide Giant;
    Quotients(hi, lo);
  }

  /** The outcome of one level of the walk. */
  datatype Step = Stop | Leaf | Next(table: nat)

  ghost function Shift(base: nat, s: set<nat>): set<nat> {
    set i | i in s :: base + i
  }

  lemma ShiftAdd(base: nat, s: set<nat>, i: nat)
    ensures Shift(base, s + {i}) == Shift(base, s) + {base + i}
    ensures base + i in Shift(base, s) <==> i in s
  {
    if base + i in Shift(base, s) {
      var j :| j in s && base + j == base + i;
    }
    forall f | f in Shift(base, s) + {base + i} ensures f in Shift(base, s + {i}) {
      assert f - base in s + {i};
    }
  }

  lemma ShiftMinus(base: nat, s: set<nat>, i: nat)
    ensures Shift(base, s - {i}) == Shift(base, s) - {base + i}
  {
    forall f | f in Shift(base, s) - {base + i} ensures f in Shift(base, s - {i}) {
      assert f - base in s - {i};
    }
  }

  /** Linking an empty table with flags that lack the user bit adds no user link. */
  lemma LinksKept(mem: Memory, tree: Tree, p: Path, i: nat, g: nat, flags: Word)
    requires Wf(mem, tree) && p in tree && |p| < 3 && i < 512 && !Present(mem[tree[p]][i])
    requires Fresh(tree, g) && LinkFlags(flags)
    ensures flags & USER == 0 && NoUserLinks(mem, tree) ==>
              NoUserLinks(Linked(mem, tree, p, i, g, ZeroTable(), Link(g, flags)), tree[p + [i] := g])
  {
    hide Cells, Frame, Link, ZeroTable, Present, Huge, NoUserLinks, Linked, LinkOk;
    EmptyLinkOk(mem, tree, p, i, g, flags);
    LinkWord(g, flags);
    if flags & USER == 0 && NoUserLinks(mem, tree) {
      NoUserLinksLinked(mem, tree, p, i, g, Link(g, flags));
    }
  }

  lemma PageOfFrame(start: nat, f: nat)
    requires start % PAGE_SIZE == 0 && start / PAGE_SIZE <= f
    ensures start <= f * PAGE_SIZE
    ensures (f * PAGE_SIZE - start) / PAGE_SIZE == f - start / PAGE_SIZE
  {
  }

  lemma FrameNumber(start: nat, i: nat)
    requires start % PAGE_SIZE == 0
    ensures (start + i * PAGE_SIZE) / PAGE_SIZE == start / PAGE_SIZE + i
  {
  }

  class Kernel {
    var mem: Memory
    const frames: PhysAllocator

    constructor (mem: Memory, frames: PhysAllocator)
      ensures this.mem == mem && this.frames == frames
    {
      this.mem, this.frames := mem, frames;
    }

    function Base(): nat
      reads frames`physStart
    {
      frames.physStart / PAGE_SIZE
    }

    ghost predicate Valid()
      reads this, frames, frames.bitmap
    {
      && frames.Valid() && frames.physStart % PAGE_SIZE == 0
      && (frames.totalPages != 0 ==> 0 < Base())
      && Base() + frames.totalPages <= FRAME_LIMIT
      && forall n :: Base() <= n < Base() + frames.totalPages ==> n in mem
    }

    /** The frames handed out by the allocator. */
    ghost function Taken(): set<nat>
      reads frames, frames.bitmap
    {
      Shift(Base(), frames.Live())
    }

    /** No table of the tree lies in a free page. */
    ghost predicate Apart(tree: Tree)
      reads frames, frames.bitmap
    {
      forall p :: p in tree && Base() <= tree[p] < Base() + frames.totalPages ==> tree[p] in Taken()
    }

    /** palloc, as a frame number; 0 when no page is free. */
    method PallocFrame() returns (g: nat)
      requires Valid()
      modifies frames`freePages, frames`firstPage, frames.bitmap
      ensures Valid()
      ensures g == 0 <==> old(frames.freePages) == 0
      ensures g == 0 ==> Taken() == old(Taken()) && frames.freePages == 0
      ensures g != 0 ==> frames.freePages == old(frames.freePages) - 1
      ensures g != 0 ==>
                && Base() <= g < Base() + frames.totalPages && g !in old(Taken())
                && Taken() == old(Taken()) + {g}
    {
      hide frames.Valid, frames.Live, frames.PageAt;
      var phys := frames.Palloc();
      if phys == 0 {
        return 0;
      }
      ghost var i := frames.PageAt(phys);
      FrameNumber(frames.physStart, i);
      ShiftAdd(Base(), old(frames.Live()), i);
      g := phys / PAGE_SIZE;
    }

    /** palloc followed by zeroing the page. */
    method NewTable() returns (g: nat)
      requires Valid()
      modifies this`mem, frames`freePages, frames`firstPage, frames.bitmap
      ensures Valid()
      ensures g == 0 ==> mem == old(mem) && Taken() == old(Taken()) && frames.freePages == 0
      ensures g == 0 <==> old(frames.freePages) == 0
      ensures g != 0 ==> frames.freePages == old(frames.freePages) - 1
      ensures g != 0 ==>
                && Base() <= g < Base() + frames.totalPages && g !in old(Taken())
                && Taken() == old(Taken()) + {g} && mem == old(mem)[g := ZeroTable()]
    {
      g := PallocFrame();
      if g != 0 {
        mem := mem[g := ZeroTable()];
      }
    }

    /** The loop that fills the new page table with the pieces of the 2 MB page. */
    method FillSplit(g: nat, h: Word)
      requires g in mem
      modifies this`mem
      ensures mem == old(mem)[g := SplitTable(h)]
    {
      var i := 0;
      while i < 512
        invariant 0 <= i <= 512 && g in mem
        invariant mem == old(mem)[g := mem[g]]
        invariant forall j :: 0 <= j < i ==> mem[g][j] == SplitEntry(h, j)
      {
        mem := SetEntry(mem, g, i, SplitEntry(h, i));
        i := i + 1;
      }
      assert mem[g] == SplitTable(h);
    }

    /** The tree is well formed and its table at p lies in the given frame. */
    ghost predicate Holds(tree: Tree, p: Path, table: nat)
      reads this, frames, frames.bitmap
    {
      Valid() && Wf(mem, tree) && [] in tree && p in tree && tree[p] == table && table in mem
    }

    /** Where a walk stands: at the table at p of a tree none of whose tables is free. */
    ghost predicate Reached(tree: Tree, p: Path, table: nat)
      reads this, frames, frames.bitmap
    {
      Holds(tree, p, table) && Apart(tree)
    }

    /** Creates a missing table under the entry i of the table at p. */
    method AddTable(table: nat, i: nat, flags: Word, ghost tree: Tree, ghost p: Path)
        returns (g: nat, ghost tree': Tree)
      requires Reached(tree, p, table) && |p| < 3 && i < 512 && !Present(mem[table][i]) && LinkFlags(flags)
      modifies this`mem, frames`freePages, frames`firstPage, frames.bitmap
      ensures Valid() && Apart(tree')
      ensures Grown(old(mem), tree, old(Taken()), mem, tree', Taken())
      ensures g == 0 ==> tree' == tree && frames.freePages == 0
      ensures g != 0 ==> Reached(tree', p + [i], g) && tree' == tree[p + [i] := g]
      ensures [] in tree' && tree'[[]] == tree[[]]
      ensures frames.freePages >= old(frames.freePages) - 1
      ensures g == 0 ==> mem == old(mem) && old(frames.freePages) == 0
      ensures flags & USER == 0 && NoUserLinks(old(mem), tree) ==> NoUserLinks(mem, tree')
      ensures OpenLink(flags, true) ==> SameWays(old(mem), mem, tree[[]], 3, true)
      ensures OpenLink(flags, false) && |p| < 2 ==> SameWays(old(mem), mem, tree[[]], 2, false)
    {
      hide Wf, Grown, Walk, Present, Huge, Frame, frames.Valid, frames.Live, Link, LinkFlags, NoUserLinks, OpenLink,
           SameWays;
      tree' := tree;
      SameWaysTrivial(mem, tree[[]], 3, true);
      SameWaysTrivial(mem, tree[[]], 2, false);
      GrownReflexive(mem, tree, Taken());
      g := NewTable();
      if g != 0 {
        assert Fresh(tree, g);
        GrownByEmptyTable(old(mem), tree, old(Taken()), p, i, g, flags);
        LinksKept(old(mem), tree, p, i, g, flags);
        if OpenLink(flags, true) {
          EmptyLinkWays(old(mem), tree, p, i, g, flags, 3, true);
        }
        if OpenLink(flags, false) && |p| < 2 {
          EmptyLinkWays(old(mem), tree, p, i, g, flags, 2, false);
        }
        mem := SetEntry(mem, table, i, Link(g, flags));
        tree' := tree[p + [i] := g];
        GrownFacts(old(mem), tree, old(Taken()), mem, tree', Taken());
      }
    }

    /** Splits the 2 MB page under the entry i of the page directory at p. */
    method SplitPage(table: nat, i: nat, ghost tree: Tree, ghost p: Path) returns (g: nat, ghost tree': Tree)
      requires Reached(tree, p, table) && |p| == 2 && i < 512 && Huge(mem[table][i])
      modifies this`mem, frames`freePages, frames`firstPage, frames.bitmap
      ensures Valid() && Apart(tree')
      ensures Grown(old(mem), tree, old(Taken()), mem, tree', Taken())
      ensures g == 0 ==> tree' == tree && frames.freePages == 0
      ensures g != 0 ==> Reached(tree', p + [i], g) && tree' == tree[p + [i] := g]
      ensures [] in tree' && tree'[[]] == tree[[]]
      ensures SameWays(old(mem), mem, tree[[]], 3, true)
    {
      hide Wf, Grown, Walk, Present, Huge, Frame, frames.Valid, frames.Live, Link, SplitTable, SplitLinkFlags, SameWays;
      tree' := tree;
      SameWaysTrivial(mem, tree[[]], 3, true);
      GrownReflexive(mem, tree, Taken());
      var h := mem[table][i];
      g := NewTable();
      if g != 0 {
        assert Fresh(tree, g);
        GrownBySplit(old(mem), tree, old(Taken()), p, i, g);
        SplitWays(old(mem), tree, p, i, g);
        FillSplit(g, h);
        assert mem == old(mem)[g := SplitTable(h)];
        mem := SetEntry(mem, table, i, Link(g, SplitLinkFlags(h)));
        tree' := tree[p + [i] := g];
        GrownFacts(old(mem), tree, old(Taken()), mem, tree', Taken());
      }
    }

    /** One level of walk_or_create, at the table of level l that v selects. */
    method Descend(l: nat, table: nat, v: Word, create: bool, ghost tree: Tree) returns (s: Step, ghost tree': Tree)
      requires l < 3 && Reached(tree, Prefix(v, l), table)
      modifies this`mem, frames`freePages, frames`firstPage, frames.bitmap
      ensures Valid() && Apart(tree') && Grown(old(mem), tree, old(Taken()), mem, tree', Taken())
      ensures !create ==> mem == old(mem) && tree' == tree && Taken() == old(Taken())
      ensures [] in tree' && tree'[[]] == tree[[]] && OnlyBelow(tree, tree', Index(v, 0))
      ensures SameWays(old(mem), mem, tree[[]], 3, true)
      ensures s.Next? ==> Reached(tree', Prefix(v, l + 1), s.table)
      ensures s.Leaf? ==> l == 2 && !create && Reached(tree', Prefix(v, l), table) && Huge(mem[table][Index(v, 2)])
      ensures s.Stop? ==>
                || Giant(mem, tree', v)
                || (!create && Walk(mem, tree'[[]], v) == Fault)
                || (create && frames.freePages == 0)
    {
      hide Grown, Walk, Frame, Valid, Apart, Present, Huge, Taken, Wf, LinkFlags, OpenLink, SameWays;
      var i := Index(v, l);
      var e := mem[table][i];
      tree' := tree;
      SameWaysTrivial(mem, tree[[]], 3, true);
      PrefixHead(v, l);
      GrownReflexive(mem, tree, Taken());
      EntryFacts(mem, tree, Prefix(v, l), i);
      var g := 0;
      if l == 2 && Huge(e) {
        if !create {
          return Leaf, tree';
        }
        g, tree' := SplitPage(table, i, tree, Prefix(v, l));
      } else if !Present(e) {
        if !create {
          AbsentFaults(mem, tree, v, l);
          return Stop, tree';
        }
        TableFlagsOpen();
        g, tree' := AddTable(table, i, TABLE_FLAGS, tree, Prefix(v, l));
      } else if l == 1 && Huge(e) {
        return Stop, tree';
      } else {
        ChildReached(mem, tree, Prefix(v, l), i);
        return Next(Frame(e)), tree';
      }
      s := if g == 0 then Stop else Next(g);
    }

    /** walk_or_create: the table and index of v's leaf entry, creating tables and
        splitting 2 MB pages on the way when asked to. */
    method WalkOrCreate(root: nat, v: Word, create: bool, ghost tree: Tree)
      returns (found: bool, table: nat, index: nat, ghost p: Path, ghost tree': Tree)
      requires Reached(tree, [], root)
      modifies this`mem, frames`freePages, frames`firstPage, frames.bitmap
      ensures Valid() && Apart(tree') && Grown(old(mem), tree, old(Taken()), mem, tree', Taken())
      ensures !create ==> mem == old(mem) && tree' == tree && Taken() == old(Taken())
      ensures OnlyBelow(tree, tree', Index(v, 0)) && SameWays(old(mem), mem, root, 3, true)
      ensures found ==>
                && Reached(tree', p, table) && index < 512 && Prefix(v, |p| + 1) == p + [index]
                && (|p| == 3 || (|p| == 2 && !create && Huge(mem[table][index])))
      ensures !found ==>
                || Giant(mem, tree', v)
                || (!create && Walk(mem, root, v) == Fault)
                || (create && frames.freePages == 0)
    {
      hide Grown, Walk, Valid, Apart, Wf, Giant, Huge, Taken, Prefix, SameWays;
      found, table, index, p, tree' := false, root, Index(v, 0), [], tree;
      var s: Step;
      PrefixZero(v);
      s, tree' := Descend(0, table, v, create, tree);
      if !s.Next? {
        return;
      }
      table, index := s.table, Index(v, 1);
      ghost var mem1, tree1, taken1 := mem, tree', Taken();
      s, tree' := Descend(1, table, v, create, tree1);
      GrownTransitive(old(mem), tree, old(Taken()), mem1, tree1, taken1, mem, tree', Taken());
      SameWaysTransitive(old(mem), mem1, mem, root, 3, true);
      if !s.Next? {
        return;
      }
      table, index := s.table, Index(v, 2);
      ghost var mem2, tree2, taken2 := mem, tree', Taken();
      s, tree' := Descend(2, table, v, create, tree2);
      GrownTransitive(old(mem), tree, old(Taken()), mem2, tree2, taken2, mem, tree', Taken());
      SameWaysTransitive(old(mem), mem2, mem, root, 3, true);
      if s.Stop? {
        return;
      }
      found := true;
      if s.Leaf? {
        p := Prefix(v, 2);
        return;
      }
      p, table, index := Prefix(v, 3), s.table, Index(v, 3);
    }

    /** set_pte */
    method Store(table: nat, index: nat, e: Word)
      requires Valid() && table in mem && index < 512
      modifies this`mem
      ensures Valid() && mem == SetEntry(old(mem), table, index, e)
    {
      mem := SetEntry(mem, table, index, e);
    }

    /** map_page. Whatever happens, no address outside the page changes its meaning. */
    method MapPage(root: nat, phys: Word, v: Word, flags: Word, ghost tree: Tree) returns (ok: bool, ghost tree': Tree)
      requires Reached(tree, [], root) && flags & (PAGE_MASK | HUGE) == 0
      modifies this`mem, frames`freePages, frames`firstPage, frames.bitmap
      ensures Reached(tree', [], root)
      ensures forall w :: Walk(mem, root, w) ==
                if ok && SamePage(v, w) then Mapped(mem, tree', phys, flags, w) else Walk(old(mem), root, w)
      ensures ok ==> forall w :: SamePage(v, w) ==>
                       Walk(mem, root, w) == NewPage(WayRights(old(mem), root, w, 3, true), phys, flags, w)
      ensures SameWays(old(mem), mem, root, 3, true)
      ensures ok ==> !Giant(mem, tree', v) && !Big(mem, tree', v)
      ensures !ok ==> Giant(mem, tree', v) || frames.freePages == 0
      ensures OnlyBelow(tree, tree', Index(v, 0))
      ensures Accounted(old(Taken()), tree, Taken(), tree')
    {
      hide Walk, Wf, Valid, Apart, Giant, Big, Huge, Taken, Prefix, Mapped, SamePage, Tables, MapEntry, SameWays,
           WayRights, NewPage;
      var found, table, index;
      ghost var p: Path;
      found, table, index, p, tree' := WalkOrCreate(root, v, true, tree);
      ghost var mem1 := mem;
      GrownFacts(old(mem), tree, old(Taken()), mem, tree', Taken());
      GrownAccounted(old(mem), tree, old(Taken()), mem, tree', Taken());
      ok := found;
      if found {
        MapWrite(mem, tree', p, index, phys, v, flags);
        Store(table, index, MapEntry(phys, flags));
        LeafEnds(p, index, v);
        SmallPage(mem, tree', v);
        LeafIsNoLink(mem1, tree', p, index, v);
        LeafKeepsWays(mem1, tree', p, index, MapEntry(phys, flags), 3, true);
        SameWaysTransitive(old(mem), mem1, mem, root, 3, true);
        MappedRights(old(mem), mem, tree', v, phys, flags);
      }
    }

    /** In a new address space, after any run of map_page and unmap_page, a page that map_page
        reports as mapped has exactly the rights of its flags. */
    method MapInNewSpace(requests: seq<Request>, phys: Word, v: Word, flags: Word) returns (root: nat, ok: bool)
      requires Valid() && flags & (PAGE_MASK | HUGE) == 0
      requires forall k :: 0 <= k < |requests| && requests[k].Map? ==> requests[k].flags & (PAGE_MASK | HUGE) == 0
      modifies this`mem, frames`freePages, frames`firstPage, frames.bitmap
      ensures Valid() && (ok ==> root != 0)
      ensures ok ==> forall w :: SamePage(v, w) ==>
                       Walk(mem, root, w) ==
                       Hit((phys & 0xFFFF_FFFF_F000) | (w & 0xFFF),
                           Rights(flags & 0x2 != 0, flags & 0x4 != 0, flags & 0x8000_0000_0000_0000 != 0))
    {
      hide Walk, Reached, SamePage, Taken, Accounted, OnlyBelow, Mapped, WayRights, SameWays, Open, ZeroTable;
      ghost var tree;
      root, tree := CreateAddressSpace();
      ok := false;
      if root == 0 {
        return;
      }
      NewOpen(mem, root);
      for k := 0 to |requests|
        invariant Reached(tree, [], root) && Open(mem, root)
      {
        ghost var mem1 := mem;
        match requests[k] {
          case Map(p, virt, f) =>
            var mapped;
            mapped, tree := MapPage(root, p, virt, f, tree);
          case Unmap(virt) =>
            UnmapPage(root, virt, tree);
        }
        StaysOpen(mem1, mem, root);
      }
      ghost var mem1 := mem;
      ok, tree := MapPage(root, phys, v, flags, tree);
      OpenRights(mem1, root);
      ReachedValid(tree, root);
    }

    lemma OpenRights(m: Memory, root: nat)
      requires Open(m, root)
      ensures forall v :: WayRights(m, root, v, 3, true) == Rights(true, true, false)
    {
    }

    lemma ReachedValid(tree: Tree, root: nat)
      requires Reached(tree, [], root)
      ensures Valid()
    {
    }

    /** A successful map_page makes virt_to_phys give the new frame plus the offset for every
        address w of the page. */
    method MapThenTranslate(root: nat, phys: Word, v: Word, flags: Word, w: Word, ghost tree: Tree)
      returns (ok: bool, found: Word, ghost tree': Tree)
      requires Reached(tree, [], root) && flags & (PAGE_MASK | HUGE) == 0 && SamePage(v, w)
      modifies this`mem, frames`freePages, frames`firstPage, frames.bitmap
      ensures Reached(tree', [], root)
      ensures ok ==> found == (phys & PAGE_MASK) | (w & 0xFFF)
      ensures !ok ==> Giant(mem, tree', v) || frames.freePages == 0
    {
      hide Walk, Reached, Giant, Big, SamePage, Accounted, OnlyBelow, Taken, RightsTo, Restrict;
      ok, tree' := MapPage(root, phys, v, flags, tree);
      ReachedRoot(tree', root);
      found := 0;
      if ok {
        SamePageSameKind(mem, tree', v, w);
        found := VirtToPhys(root, w, tree');
      }
    }

    /** virt_to_phys agrees with the processor, except that it knows no 1 GB page. */
    method VirtToPhys(root: nat, v: Word, ghost tree: Tree) returns (phys: Word)
      requires Reached(tree, [], root)
      modifies this`mem, frames`freePages, frames`firstPage, frames.bitmap
      ensures Reached(tree, [], root) && mem == old(mem) && Taken() == old(Taken())
      ensures phys == PhysOf(mem, tree, v)
      ensures match Walk(mem, root, v)
              case Fault => phys == 0
              case Hit(p, _) => phys == p <==> !Giant(mem, tree, v) || p == 0
    {
      hide Walk, Cells, Valid, Apart, Huge, Present, Taken, Prefix, Grown, Giant, LeafAddress;
      var found, table, index;
      ghost var p, t;
      found, table, index, p, t := WalkOrCreate(root, v, false, tree);
      if !found {
        phys := 0;
        return;
      }
      LeafAddressCorrect(mem, tree, p, index, v);
      phys := LeafAddress(mem[table][index], v);
    }

    /** unmap_page. It is exact on 4 KB pages; inside a 2 MB page it removes the whole
        2 MB, and inside a 1 GB page it does nothing. */
    method UnmapPage(root: nat, v: Word, ghost tree: Tree)
      requires Reached(tree, [], root)
      modifies this`mem, frames`freePages, frames`firstPage, frames.bitmap
      ensures Reached(tree, [], root) && Taken() == old(Taken())
      ensures Unmapped(old(mem), tree, v, mem) && SameWays(old(mem), mem, root, 3, true)
    {
      hide Walk, Cells, Valid, Apart, Huge, Present, Taken, Prefix, Grown, Giant, Unmapped, SetEntry, SameWays;
      SameWaysTrivial(mem, root, 3, true);
      var found, table, index;
      ghost var p, t;
      found, table, index, p, t := WalkOrCreate(root, v, false, tree);
      if !found {
        NothingToUnmap(mem, tree, v);
        return;
      }
      if !Present(mem[table][index]) {
        LeafRead(mem, tree, p, index, v);
        NothingToUnmap(mem, tree, v);
        return;
      }
      UnmapWrite(mem, tree, p, index, v);
      LeafIsNoLink(mem, tree, p, index, v);
      LeafKeepsWays(mem, tree, p, index, 0, 3, true);
      Store(table, index, 0);
    }

    /** create_address_space: an empty address space, or 0. */
    method CreateAddressSpace() returns (root: nat, ghost tree: Tree)
      requires Valid()
      modifies this`mem, frames`freePages, frames`firstPage, frames.bitmap
      ensures Valid()
      ensures root == 0 ==> Taken() == old(Taken()) && frames.freePages == 0
      ensures root == 0 <==> old(frames.freePages) == 0
      ensures root != 0 ==> frames.freePages == old(frames.freePages) - 1
      ensures root != 0 ==>
                && Reached(tree, [], root) && tree == map[[] := root]
                && (forall w :: Walk(mem, root, w) == Fault)
                && root in mem && mem[root] == ZeroTable()
                && Taken() == old(Taken()) + {root} && root !in old(Taken())
    {
      hide Wf, Walk, frames.Valid, frames.Live;
      root := NewTable();
      tree := map[[] := root];
      if root != 0 {
        EmptySpace(mem, root);
      }
    }

    /** pfree of a frame that is handed out; the precondition rules out freeing twice
        and freeing what the allocator does not own. */
    method PfreeFrame(f: nat)
      requires Valid() && f in Taken()
      modifies frames`freePages, frames`firstPage, frames.bitmap
      ensures Valid() && Taken() == old(Taken()) - {f}
    {
      hide frames.Valid, frames.Live, frames.PageAt, Shift;
      AddressOfFrame(f);
      frames.Pfree(f * PAGE_SIZE);
      ShiftMinus(Base(), old(frames.Live()), f - Base());
    }

    lemma AddressOfFrame(f: nat)
      requires frames.physStart % PAGE_SIZE == 0 && f in Taken()
      ensures Base() <= f && frames.physStart <= f * PAGE_SIZE
      ensures frames.PageAt(f * PAGE_SIZE) == f - Base()
    {
      hide frames.Live;
      PageOfFrame(frames.physStart, f);
    }

    /** The innermost loop and the page directory itself: all tables at and below q. */
    method FreePageDirectory(table: nat, ghost tree: Tree, ghost q: Path)
      requires Holds(tree, q, table) && |q| == 2 && Frames(tree, Under(tree, q)) <= Taken()
      modifies frames`freePages, frames`firstPage, frames.bitmap
      ensures Valid() && Taken() == old(Taken()) - Frames(tree, Under(tree, q))
    {
      hide Wf, Present, Huge, Frame, frames.Valid, frames.Live, Taken, Frames, Under, Before, TreeOk, Apart;
      WfTreeOk(mem, tree);
      LoopStart(tree, q);
      var k := 0;
      while k < 512
        invariant 0 <= k <= 512 && Valid()
        invariant Taken() == old(Taken()) - Frames(tree, Before(tree, q, k))
      {
        var e := mem[table][k];
        EntryFacts(mem, tree, q, k);
        LoopStep(tree, q, k);
        LoopInside(tree, q, k);
        if Present(e) && !Huge(e) {
          PfreeFrame(Frame(e));
        }
        k := k + 1;
      }
      LoopEnd(tree, q);
      PfreeFrame(table);
    }

    /** The middle loop and the page-directory-pointer table itself. */
    method FreePointerTable(table: nat, ghost tree: Tree, ghost q: Path)
      requires Holds(tree, q, table) && |q| == 1 && Frames(tree, Under(tree, q)) <= Taken()
      modifies frames`freePages, frames`firstPage, frames.bitmap
      ensures Valid() && Taken() == old(Taken()) - Frames(tree, Under(tree, q))
    {
      hide Wf, Present, Huge, Frame, frames.Valid, frames.Live, Taken, Frames, Under, Before, TreeOk, Apart;
      WfTreeOk(mem, tree);
      LoopStart(tree, q);
      var j := 0;
      while j < 512
        invariant 0 <= j <= 512 && Valid()
        invariant Taken() == old(Taken()) - Frames(tree, Before(tree, q, j))
      {
        var e := mem[table][j];
        EntryFacts(mem, tree, q, j);
        LoopStep(tree, q, j);
        LoopInside(tree, q, j);
        if Present(e) && !Huge(e) {
          ChildReached(mem, tree, q, j);
          FreePageDirectory(Frame(e), tree, q + [j]);
        }
        j := j + 1;
      }
      LoopEnd(tree, q);
      PfreeFrame(table);
    }

    /** destroy_address_space: exactly the tables of the lower half and the root are given
        back, each while it is handed out; data frames and shared upper-half tables stay. */
    method DestroyAddressSpace(root: nat, ghost tree: Tree)
      requires Holds(tree, [], root) && LowerHalf(tree) <= Taken()
      modifies frames`freePages, frames`firstPage, frames.bitmap
      ensures Valid() && Taken() == old(Taken()) - LowerHalf(tree)
    {
      hide Wf, Present, Huge, Frame, frames.Valid, frames.Live, Taken, Frames, Under, Before, TreeOk, Apart, LowerHalf;
      WfTreeOk(mem, tree);
      LoopStart(tree, []);
      LowerHalfEnd(tree);
      var i := 0;
      while i < 256
        invariant 0 <= i <= 256 && Valid()
        invariant Taken() == old(Taken()) - Frames(tree, Before(tree, [], i))
      {
        var e := mem[root][i];
        EntryFacts(mem, tree, [], i);
        LoopStep(tree, [], i);
        LowerHalfInside(tree, i);
        if Present(e) {
          ChildReached(mem, tree, [], i);
          FreePointerTable(Frame(e), tree, [] + [i]);
        }
        i := i + 1;
      }
      PfreeFrame(root);
    }

    /** Makes sure the entry v selects at level l points to a table (kernel-only flags). */
    method EnsureTable(l: nat, table: nat, v: Word, ghost tree: Tree) returns (g: nat, ghost tree': Tree)
      requires l < 2 && Reached(tree, Prefix(v, l), table) && !Giant(mem, tree, v)
      modifies this`mem, frames`freePages, frames`firstPage, frames.bitmap
      ensures Valid() && Apart(tree') && Grown(old(mem), tree, old(Taken()), mem, tree', Taken())
      ensures [] in tree' && tree'[[]] == tree[[]]
      ensures OnlyBelow(tree, tree', Index(v, 0)) && NoNewPageTable(tree, tree')
      ensures g == 0 ==> frames.freePages == 0
      ensures frames.freePages >= old(frames.freePages) - 1
      ensures NoUserLinks(old(mem), tree) ==> NoUserLinks(mem, tree')
      ensures SameWays(old(mem), mem, tree[[]], 2, false)
      ensures g != 0 ==> Reached(tree', Prefix(v, l + 1), g)
    {
      hide OpenLink, SameWays, Grown, Walk, Frame, Valid, Apart, Present, Huge, Taken, Wf, LinkFlags, NoUserLinks;
      var i := Index(v, l);
      var e := mem[table][i];
      tree' := tree;
      PrefixHead(v, l);
      GrownReflexive(mem, tree, Taken());
      EntryFacts(mem, tree, Prefix(v, l), i);
      SameWaysTrivial(mem, tree[[]], 2, false);
      if !Present(e) {
        KernelTableOpen();
        g, tree' := AddTable(table, i, KERNEL_TABLE, tree, Prefix(v, l));
      } else {
        ChildReached(mem, tree, Prefix(v, l), i);
        TreeFrames(mem, tree);
        g := Frame(e);
      }
    }

    /** Makes sure v has a page directory. */
    method EnsureDirectory(root: nat, v: Word, ghost tree: Tree) returns (g: nat, ghost tree': Tree)
      requires Reached(tree, [], root) && !Giant(mem, tree, v)
      modifies this`mem, frames`freePages, frames`firstPage, frames.bitmap
      ensures Valid() && Apart(tree') && Grown(old(mem), tree, old(Taken()), mem, tree', Taken())
      ensures [] in tree' && tree'[[]] == tree[[]]
      ensures OnlyBelow(tree, tree', Index(v, 0)) && NoNewPageTable(tree, tree')
      ensures g == 0 ==> frames.freePages == 0
      ensures frames.freePages >= old(frames.freePages) - 2
      ensures NoUserLinks(old(mem), tree) ==> NoUserLinks(mem, tree')
      ensures SameWays(old(mem), mem, tree[[]], 2, false)
      ensures g != 0 ==> Reached(tree', Prefix(v, 2), g)
    {
      hide SameWays, Grown, Walk, Valid, Apart, Giant, Taken, Prefix, Wf, OnlyBelow, NoUserLinks;
      PrefixZero(v);
      g, tree' := EnsureTable(0, root, v, tree);
      if g == 0 {
        return;
      }
      GrownNoGiant(old(mem), tree, old(Taken()), mem, tree', Taken());
      ghost var mem1, tree1, taken1 := mem, tree', Taken();
      g, tree' := EnsureTable(1, g, v, tree1);
      GrownTransitive(old(mem), tree, old(Taken()), mem1, tree1, taken1, mem, tree', Taken());
      OnlyBelowTransitive(tree, tree1, tree', Index(v, 0));
      SameWaysTransitive(old(mem), mem1, mem, tree[[]], 2, false);
    }

    /** One turn of the loop: the 2 MB at addr. */
    method IdentityStep(root: nat, addr: nat, extra: Word, ghost tree: Tree) returns (ok: bool, ghost tree': Tree)
      requires Reached(tree, [], root) && extra & PAGE_MASK == 0 && addr % BIG == 0 && addr < 0x8000_0000_0000
      requires Replaceable(mem, tree, addr, addr + BIG)
      modifies this`mem, frames`freePages, frames`firstPage, frames.bitmap
      ensures Reached(tree', [], root)
      ensures OnlyBelow(tree, tree', Index(AddressWord(addr), 0)) && NoNewPageTable(tree, tree')
      ensures Accounted(old(Taken()), tree, Taken(), tree')
      ensures IdentityEffect(old(mem), root, addr, if ok then addr + BIG else addr, extra, mem)
      ensures ok ==> BigLeaf(mem, tree', AddressWord(addr), extra)
      ensures NoUserLinks(old(mem), tree) ==> NoUserLinks(mem, tree')
      ensures NoNewGiant(old(mem), tree, mem, tree')
      ensures frames.freePages >= old(frames.freePages) - 2 && (!ok ==> frames.freePages == 0)
    {
      hide NoNewGiant, Walk, Valid, Apart, Giant, Taken, Prefix, AddressWord, Tables, Cells, OnlyBelow, IdentityEffect,
           BigEntry, Grown, Index, Wf, NoUserLinks, SameWays, BigLeaf;
      var v := AddressWord(addr);
      ReplaceableAt(mem, tree, addr);
      var table;
      table, tree' := EnsureDirectory(root, v, tree);
      GrownFacts(old(mem), tree, old(Taken()), mem, tree', Taken());
      GrownAccounted(old(mem), tree, old(Taken()), mem, tree', Taken());
      GrownIdentity(old(mem), tree, old(Taken()), mem, tree', Taken(), addr, extra);
      GrownNoGiant(old(mem), tree, old(Taken()), mem, tree', Taken());
      ok := table != 0;
      if ok {
        PrefixZero(v);
        BigStored(old(mem), tree, mem, tree', addr, extra);
        Store(table, Index(v, 2), BigEntry(v, extra));
      }
    }

    /** identity_map_2mb over a range in which nothing or 2 MB pages are mapped. When frames run
        out the 2 MB pages below upto are mapped. */
    method IdentityMap2mb(root: nat, start: nat, end: nat, extra: Word, ghost tree: Tree)
      returns (ok: bool, ghost upto: nat, ghost tree': Tree)
      requires Reached(tree, [], root) && extra & PAGE_MASK == 0
      requires start < 0x8000_0000_0000 && end <= 0x8000_0000_0000
      requires RangeStart(start) < end ==> RangeStart(start) / 0x80_0000_0000 == (end - 1) / 0x80_0000_0000
      requires Replaceable(mem, tree, RangeStart(start), RangeEnd(end))
      modifies this`mem, frames`freePages, frames`firstPage, frames.bitmap
      ensures Reached(tree', [], root)
      ensures OnlyBelow(tree, tree', RangeStart(start) / 0x80_0000_0000) && NoNewPageTable(tree, tree')
      ensures Accounted(old(Taken()), tree, Taken(), tree')
      ensures RangeStart(start) < end ==> RangeStart(start) <= upto <= RangeEnd(end) && (ok ==> upto == RangeEnd(end))
      ensures RangeStart(start) >= end ==> ok && upto == RangeStart(start)
      ensures IdentityEffect(old(mem), root, RangeStart(start), upto, extra, mem)
      ensures NoUserLinks(old(mem), tree) ==> NoUserLinks(mem, tree')
      ensures NoNewGiant(old(mem), tree, mem, tree')
      ensures !ok ==> frames.freePages == 0
      ensures RangeStart(start) < end <= RangeStart(start) + BIG && ok ==>
              BigLeaf(mem, tree', AddressWord(RangeStart(start)), extra)
      ensures end <= RangeStart(start) + BIG ==> frames.freePages >= old(frames.freePages) - 2
    {
      hide Reached, Walk, Taken, OnlyBelow, Accounted, IdentityEffect, Replaceable, NoNewPageTable, NoNewGiant,
           AddressWord, Index, NoUserLinks, BigLeaf;
      var addr := RangeStart(start);
      tree' := tree;
      IdentityNone(mem, root, addr, extra);
      OnlyBelowTrivial(tree, addr / 0x80_0000_0000);
      NoNewTrivial(tree);
      NoNewGiantTrivial(mem, tree);
      AccountedReflexive(Taken(), tree);
      ReachedRoot(tree, root);
      while addr < end
        invariant RangeStart(start) <= addr && addr % BIG == 0 && (addr == RangeStart(start) || RangeStart(start) < end)
        invariant RangeStart(start) < end ==> addr <= RangeEnd(end)
        invariant Reached(tree', [], root) && [] in tree' && tree'[[]] == root
        invariant OnlyBelow(tree, tree', RangeStart(start) / 0x80_0000_0000) && NoNewPageTable(tree, tree')
        invariant NoNewGiant(old(mem), tree, mem, tree')
        invariant Accounted(old(Taken()), tree, Taken(), tree')
        invariant IdentityEffect(old(mem), root, RangeStart(start), addr, extra, mem)
        invariant NoUserLinks(old(mem), tree) ==> NoUserLinks(mem, tree')
        invariant addr == RangeStart(start) ==> frames.freePages == old(frames.freePages)
        invariant addr == RangeStart(start) + BIG ==> frames.freePages >= old(frames.freePages) - 2
        invariant addr == RangeStart(start) + BIG ==> BigLeaf(mem, tree', AddressWord(RangeStart(start)), extra)
      {
        NextPage(addr, start, end);
        RootEntry(addr);
        StillReplaceable(old(mem), tree, mem, tree', RangeStart(start), RangeEnd(end), addr, addr + BIG);
        ghost var mem1, tree1, taken1 := mem, tree', Taken();
        ok, tree' := IdentityStep(root, addr, extra, tree1);
        OnlyBelowTransitive(tree, tree1, tree', addr / 0x80_0000_0000);
        NoNewTransitive(tree, tree1, tree');
        NoNewGiantTransitive(old(mem), tree, mem1, tree1, mem, tree');
        AccountedTransitive(old(Taken()), tree, taken1, tree1, Taken(), tree');
        ReachedRoot(tree', root);
        IdentityExtends(old(mem), mem1, mem, root, RangeStart(start), addr, if ok then addr + BIG else addr, extra);
        upto := addr;
        if !ok {
          return;
        }
        addr := addr + BIG;
      }
      ok, upto := true, addr;
    }

    lemma ReachedRoot(tree: Tree, root: nat)
      requires Reached(tree, [], root)
      ensures [] in tree && tree[[]] == root
    {
    }

    /** is_user_range_mapped: every page of the range has a present leaf with the user bit.
        Addresses and lengths are 64-bit values. */
    method IsUserRangeMapped(root: nat, virt: nat, len: nat, ghost tree: Tree) returns (mapped: bool)
      requires root != 0 ==> Reached(tree, [], root)
      requires virt < 0x1_0000_0000_0000_0000 && len < 0x1_0000_0000_0000_0000
      modifies this`mem, frames`freePages, frames`firstPage, frames.bitmap
      ensures mem == old(mem) && (root != 0 ==> Reached(tree, [], root) && Taken() == old(Taken()))
      ensures mapped <==>
                || len == 0
                || (root != 0 && virt + len <= 0x8000_0000_0000
                    && forall w :: virt / PAGE_SIZE <= Frame(w) <= (virt + len - 1) / PAGE_SIZE ==>
                       UserLeaf(mem, tree, w))
      ensures mapped && len > 0 ==> [] in tree && UserCanAll(mem, tree, virt / PAGE_SIZE, (virt + len - 1) / PAGE_SIZE)
    {
      hide Reached, Walk, Taken, UserLeaf, Frame, UserCanAll;
      if len == 0 {
        return true;
      }
      if root == 0 {
        return false;
      }
      var end := virt + len;
      if end >= 0x1_0000_0000_0000_0000 || virt >= 0x8000_0000_0000 || end > 0x8000_0000_0000 {
        return false;
      }
      PageBounds(virt, len);
      mapped := UserPages(root, virt / PAGE_SIZE, (end + PAGE_SIZE - 1) / PAGE_SIZE, tree);
      if mapped {
        UserRange(tree, root, virt / PAGE_SIZE, (virt + len - 1) / PAGE_SIZE);
      }
    }

    /** The loop over the pages of a range. */
    method UserPages(root: nat, first: nat, endPage: nat, ghost tree: Tree) returns (user: bool)
      requires Reached(tree, [], root) && first <= endPage <= FRAME_LIMIT
      modifies this`mem, frames`freePages, frames`firstPage, frames.bitmap
      ensures Reached(tree, [], root) && mem == old(mem) && Taken() == old(Taken())
      ensures user <==> forall w :: first <= Frame(w) < endPage ==> UserLeaf(mem, tree, w)
    {
      hide Reached, Walk, Taken, UserLeaf, Frame;
      var page := first;
      while page < endPage
        invariant first <= page <= endPage && mem == old(mem) && Taken() == old(Taken())
        invariant Reached(tree, [], root)
        invariant forall w :: first <= Frame(w) < page ==> UserLeaf(mem, tree, w)
      {
        var here := IsUserPage(root, page, tree);
        if !here {
          FrameRoundTrip(page);
          assert Frame(FrameWord(page)) == page;
          return false;
        }
        page := page + 1;
      }
      user := true;
    }

    lemma UserRange(tree: Tree, root: nat, lo: nat, hi: nat)
      requires Reached(tree, [], root) && forall w :: lo <= Frame(w) <= hi ==> UserLeaf(mem, tree, w)
      ensures [] in tree && UserCanAll(mem, tree, lo, hi)
    {
      hide Valid, Apart, Cells, Walk, UserLeaf, Frame, UpperRights, Giant, UserCan;
      forall w | lo <= Frame(w) <= hi ensures UserCan(mem, tree[[]], w) <==> UpperRights(mem, tree, w).user {
        UserLeafSmall(mem, tree, w);
        UserReachable(mem, tree, w);
      }
    }

    /** The test of one page in that loop. */
    method IsUserPage(root: nat, page: nat, ghost tree: Tree) returns (user: bool)
      requires Reached(tree, [], root) && page < FRAME_LIMIT
      modifies this`mem, frames`freePages, frames`firstPage, frames.bitmap
      ensures Reached(tree, [], root) && mem == old(mem) && Taken() == old(Taken())
      ensures forall w :: Frame(w) == page ==> (user <==> UserLeaf(mem, tree, w))
    {
      hide Walk, Cells, Valid, Apart, Huge, Present, Taken, Prefix, Grown, Giant, Frame, FrameWord, LeafCell;
      var v := FrameWord(page);
      var found, table, index;
      ghost var p, t;
      found, table, index, p, t := WalkOrCreate(root, v, false, tree);
      if !found {
        LeafCellAbsent(mem, tree, v);
        user := false;
      } else {
        LeafCellFound(mem, tree, p, index, v);
        user := Present(mem[table][index]) && mem[table][index] & USER != 0;
      }
      forall w | Frame(w) == page ensures user <==> UserLeaf(mem, tree, w) {
        SameFrameSameLeaf(mem, tree, page, w);
      }
    }

    /** A whole life: create, identity-map ranges for the kernel, serve any requests, whether
        or not they succeed, and destroy. The allocator ends exactly as it began. */
    method Lifecycle(ranges: seq<Range>, requests: seq<Request>) returns (created: bool)
      requires Valid() && GoodRanges(ranges)
      requires forall k :: 0 <= k < |requests| ==> Lawful(requests[k])
      modifies this`mem, frames`freePages, frames`firstPage, frames.bitmap
      ensures Valid() && Taken() == old(Taken())
    {
      hide Reached, Walk, Taken, OnlyBelow, Accounted, IdentityEffect, Index, Tables, OnlyTables, Lower, Mapped,
           Unmapped, LowerHalf, GoodRanges, AllReplaceable;
      ghost var before := Taken();
      var root;
      ghost var tree;
      root, tree := CreateAddressSpace();
      created := root != 0;
      if !created {
        return;
      }
      OnlyTablesStart(before, root);
      NewSpaceAll(mem, root, ranges);
      LowerStart(root);
      tree := IdentityPart(root, ranges, tree, before);
      var k := 0;
      while k < |requests|
        invariant 0 <= k <= |requests| && Reached(tree, [], root) && Lower(tree) && OnlyTables(before, Taken(), tree)
      {
        tree := Serve(root, requests[k], tree, before);
        k := k + 1;
      }
      ReadyToDestroy(tree, root, before);
      DestroyAddressSpace(root, tree);
    }

    /** The ranges one after the other, as far as frames last for each. */
    method IdentityPart(root: nat, ranges: seq<Range>, ghost tree: Tree, ghost before: set<nat>)
        returns (ghost tree': Tree)
      requires Reached(tree, [], root) && Lower(tree) && OnlyTables(before, Taken(), tree)
      requires [] in tree && GoodRanges(ranges) && AllReplaceable(mem, tree, ranges)
      modifies this`mem, frames`freePages, frames`firstPage, frames.bitmap
      ensures Reached(tree', [], root) && Lower(tree') && OnlyTables(before, Taken(), tree')
    {
      hide Reached, Walk, Taken, OnlyBelow, Accounted, IdentityEffect, Tables, OnlyTables, Lower, GoodRanges,
           AllReplaceable, RangeStart, RangeEnd, NoNewPageTable, NoNewGiant, Replaceable;
      tree' := tree;
      for n := 0 to |ranges|
        invariant Reached(tree', [], root) && Lower(tree') && OnlyTables(before, Taken(), tree')
        invariant [] in tree' && AllReplaceable(mem, tree', ranges)
      {
        ghost var mem1, tree1, taken := mem, tree', Taken();
        ReachedRoot(tree1, root);
        RangeFacts(mem, tree', ranges, n);
        var r := ranges[n];
        var ok;
        ghost var upto;
        ok, upto, tree' := IdentityMap2mb(root, r.start, r.end, r.extra, tree1);
        ReachedRoot(tree', root);
        AllStillReplaceable(mem1, tree1, mem, tree', ranges);
        LowerKept(tree1, tree', RangeStart(r.start) / 0x80_0000_0000);
        OnlyTablesKept(before, taken, tree1, Taken(), tree');
      }
    }

    method Serve(root: nat, r: Request, ghost tree: Tree, ghost before: set<nat>) returns (ghost tree': Tree)
      requires Reached(tree, [], root) && Lower(tree) && OnlyTables(before, Taken(), tree) && Lawful(r)
      modifies this`mem, frames`freePages, frames`firstPage, frames.bitmap
      ensures Reached(tree', [], root) && Lower(tree') && OnlyTables(before, Taken(), tree')
    {
      hide Reached, Walk, Taken, OnlyBelow, Accounted, Tables, OnlyTables, Lower, Mapped, Unmapped, Index, Giant;
      ghost var taken := Taken();
      match r
      case Map(phys, virt, flags) =>
        var ok;
        ok, tree' := MapPage(root, phys, virt, flags, tree);
        LowerKept(tree, tree', Index(virt, 0));
        OnlyTablesKept(before, taken, tree, Taken(), tree');
      case Unmap(virt) =>
        UnmapPage(root, virt, tree);
        tree' := tree;
    }

    lemma ReadyToDestroy(tree: Tree, root: nat, before: set<nat>)
      requires Reached(tree, [], root) && Lower(tree) && OnlyTables(before, Taken(), tree)
      ensures Holds(tree, [], root) && LowerHalf(tree) <= Taken() && Taken() - LowerHalf(tree) == before
    {
      hide Taken, Wf, Valid, LowerHalf, Tables;
      AllLower(tree);
    }

    lemma LowerStart(root: nat)
      ensures Lower(map[[] := root])
    {
    }
  }

  lemma PageBounds(virt: nat, len: nat)
    requires 0 < len && virt + len <= 0x8000_0000_0000
    ensures (virt + len + PAGE_SIZE - 1) / PAGE_SIZE == (virt + len - 1) / PAGE_SIZE + 1 &&
            virt / PAGE_SIZE <= (virt + len - 1) / PAGE_SIZE < FRAME_LIMIT - 1
  {
  }

  lemma SameFrameSameLeaf(mem: Memory, tree: Tree, page: nat, w: Word)
    requires page < FRAME_LIMIT && Frame(w) == page
    ensures LeafCell(mem, tree, w) == LeafCell(mem, tree, FrameWord(page))
  {
    hide Frame, FrameWord, LeafCell;
    FrameRoundTrip(page);
    WordRoundTrip(w);
    AlignedIsItself(FrameWord(page));
    SamePageSameLeaf(mem, tree, FrameWord(page), w);
  }

  lemma AlignedIsItself(x: Word)
    requires x & !PAGE_MASK == 0
    ensures x & PAGE_MASK == x
  {
  }
}
