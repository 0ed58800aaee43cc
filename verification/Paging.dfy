/** Four-level x86-64 page tables in physical memory, and what they mean.
    Walk is the processor's own reading of the tables: it combines the rights of all
    levels and knows 1 GB and 2 MB pages. Wf says that the tables reachable from a
    root form a tree; the Step lemmas say what each single write of the kernel does
    to the meaning of every virtual address. */
module Paging {
  import opened Words

  const PRESENT: Word := 0x1
  const WRITABLE: Word := 0x2
  const USER: Word := 0x4
  const ACCESSED: Word := 0x20
  const DIRTY: Word := 0x40
  const HUGE: Word := 0x80
  const GLOBAL: Word := 0x100
  const NO_EXEC: Word := 0x8000_0000_0000_0000
  const TABLE_FLAGS: Word := 0x7 // present, writable, user

  type Table = t: seq<Word> | |t| == 512 witness seq(512, _ => 0 as Word)

  /** Physical memory, frame by frame. */
  type Memory = map<nat, Table>

  /** The indices leading from the root to a table. */
  type Path = seq<nat>

  /** The tables of one address space: which frame holds the table at each path. */
  type Tree = map<Path, nat>

  function ZeroTable(): (t: Table)
    ensures forall i :: 0 <= i < 512 ==> t[i] == 0
  {
    seq(512, _ => 0 as Word)
  }

  predicate Present(e: Word) { e & PRESENT != 0 }
  predicate Huge(e: Word) { e & HUGE != 0 }

  function Entry(mem: Memory, frame: nat, i: nat): Word {
    if frame in mem && i < 512 then mem[frame][i] else 0
  }

  function SetEntry(mem: Memory, frame: nat, i: nat, e: Word): Memory
    requires frame in mem && i < 512
  {
    mem[frame := mem[frame][i := e]]
  }

  // ---------- the meaning of the tables ----------

  datatype Rights = Rights(write: bool, user: bool, noExec: bool)

  datatype Translation = Fault | Hit(phys: Word, rights: Rights)

  function Restrict(r: Rights, e: Word): Rights {
    Rights(r.write && e & WRITABLE != 0, r.user && e & USER != 0, r.noExec || e & NO_EXEC != 0)
  }

  function OffsetMask(level: nat): Word {
    if level == 1 then 0x3FFF_FFFF else if level == 2 then 0x1F_FFFF else 0xFFF
  }

  /** The page a leaf entry of the given level maps v to. */
  function LeafPhys(level: nat, e: Word, v: Word): Word {
    (e & PAGE_MASK & !OffsetMask(level)) | (v & OffsetMask(level))
  }

  /** What v means once the walk has fetched entry e at the given level. */
  function Resolve(mem: Memory, level: nat, e: Word, v: Word, r: Rights): Translation
    requires level < 4
    decreases 4 - level
  {
    if !Present(e) then Fault
    else if level == 3 || (0 < level && Huge(e)) then Hit(LeafPhys(level, e, v), Restrict(r, e))
    else Resolve(mem, level + 1, Entry(mem, Frame(e), Index(v, level + 1)), v, Restrict(r, e))
  }

  const ALL_RIGHTS := Rights(true, true, false)

  function Walk(mem: Memory, root: nat, v: Word): Translation {
    Resolve(mem, 0, Entry(mem, root, Index(v, 0)), v, ALL_RIGHTS)
  }

  // ---------- well-formed trees ----------

  /** The first l indices of a virtual address. */
  function Prefix(v: Word, l: nat): (p: Path)
    requires l <= 4
    ensures |p| == l
  {
    if l == 0 then [] else Prefix(v, l - 1) + [Index(v, l - 1)]
  }

  ghost predicate CellOk(tree: Tree, p: Path, i: nat, e: Word)
    requires |p| <= 3
  {
    && (Huge(e) ==> Present(e) && 0 < |p| < 3)
    && (Huge(e) ==> e & PAGE_MASK & OffsetMask(|p|) == 0)
    && (|p| < 3 && Present(e) && !Huge(e) <==> p + [i] in tree)
    && (p + [i] in tree ==> Frame(e) == tree[p + [i]])
  }

  /** Each path names a table of its own, in a frame of memory. */
  ghost predicate Shape(mem: Memory, tree: Tree) {
    && [] in tree
    && (forall p :: p in tree ==> |p| <= 3 && tree[p] in mem && 0 < tree[p] < FRAME_LIMIT)
    && (forall p :: p in tree && p != [] ==> p[..|p| - 1] in tree && p[|p| - 1] < 512)
    && (forall p, q :: p in tree && q in tree && tree[p] == tree[q] ==> p == q)
  }

  ghost predicate Cells(mem: Memory, tree: Tree)
    requires Shape(mem, tree)
  {
    forall p, i :: p in tree && 0 <= i < 512 ==> CellOk(tree, p, i, mem[tree[p]][i])
  }

  ghost predicate Wf(mem: Memory, tree: Tree) {
    Shape(mem, tree) && Cells(mem, tree)
  }

  /** The entry v selects in the table it reaches after l indices. */
  ghost function CellOf(mem: Memory, tree: Tree, v: Word, l: nat): Word
    requires l < 4
  {
    if Prefix(v, l) in tree then Entry(mem, tree[Prefix(v, l)], Index(v, l)) else 0
  }

  /** The rights left after the first l entries on v's way. */
  ghost function RightsTo(mem: Memory, tree: Tree, v: Word, l: nat): Rights
    requires l < 4
  {
    if l == 0 then ALL_RIGHTS else Restrict(RightsTo(mem, tree, v, l - 1), CellOf(mem, tree, v, l - 1))
  }

  lemma ParentInTree(mem: Memory, tree: Tree, v: Word, l: nat)
    requires Wf(mem, tree) && 0 < l <= 3 && Prefix(v, l) in tree
    ensures Prefix(v, l - 1) in tree
  {
    assert Prefix(v, l)[..l - 1] == Prefix(v, l - 1);
  }

  // ---------- what one write can change ----------

  /** mem' differs from mem, on the tables of the tree, in the cell (p, i) only. */
  ghost predicate SameElsewhere(mem: Memory, mem': Memory, tree: Tree, p: Path, i: nat) {
    && (forall q :: q in tree ==> tree[q] in mem && tree[q] in mem')
    && (forall q, j :: q in tree && 0 <= j < 512 && !(q == p && j == i) ==> mem'[tree[q]][j] == mem[tree[q]][j])
  }

  /** Addresses whose way does not lead through the cell keep their meaning. */
  lemma {:induction false} Elsewhere(mem: Memory, mem': Memory, tree: Tree, p: Path, i: nat, v: Word, l: nat, r: Rights)
    requires Wf(mem, tree) && SameElsewhere(mem, mem', tree, p, i)
    requires |p| <= 3 && l < 4 && Prefix(v, l) in tree && Prefix(v, |p| + 1) != p + [i]
    ensures Resolve(mem', l, CellOf(mem', tree, v, l), v, r) == Resolve(mem, l, CellOf(mem, tree, v, l), v, r)
    decreases 4 - l
  {
    var e := CellOf(mem, tree, v, l);
    assert CellOf(mem', tree, v, l) == e;
    assert CellOk(tree, Prefix(v, l), Index(v, l), e);
    if l < 3 && Present(e) && !Huge(e) {
      assert Prefix(v, l + 1) in tree;
      Elsewhere(mem, mem', tree, p, i, v, l + 1, Restrict(r, e));
    }
  }

  /** The walk of an address through the cell (p, i) reaches every table on the way
      to it as before, with the same rights left, whatever the cell now holds. */
  lemma {:induction false} Along(mem: Memory, mem': Memory, tree: Tree, p: Path, i: nat, v: Word, l: nat)
    requires Wf(mem, tree) && SameElsewhere(mem, mem', tree, p, i)
    requires l <= |p| <= 3 && Prefix(v, l) in tree
    ensures Walk(mem', tree[[]], v) == Resolve(mem', l, CellOf(mem', tree, v, l), v, RightsTo(mem, tree, v, l))
  {
    hide Index, Frame, Restrict, Resolve, CellOk, Wf, CellOf, SameElsewhere;
    if l == 0 {
      RootCell(mem', tree, v);
    } else {
      ParentInTree(mem, tree, v, l);
      Along(mem, mem', tree, p, i, v, l - 1);
      SameCell(mem, mem', tree, p, i, v, l - 1);
      StepDown(mem, mem', tree, v, l - 1, RightsTo(mem, tree, v, l - 1));
    }
  }

  lemma RootCell(mem: Memory, tree: Tree, v: Word)
    requires [] in tree
    ensures CellOf(mem, tree, v, 0) == Entry(mem, tree[[]], Index(v, 0))
  {
  }

  /** A cell above (p, i) is the same in both memories. */
  lemma SameCell(mem: Memory, mem': Memory, tree: Tree, p: Path, i: nat, v: Word, l: nat)
    requires SameElsewhere(mem, mem', tree, p, i) && l < |p| <= 3
    ensures CellOf(mem', tree, v, l) == CellOf(mem, tree, v, l)
  {
    hide Index;
  }

  /** Where v's table one level down is in the tree, the walk goes on in that table. */
  lemma StepDown(mem: Memory, mem': Memory, tree: Tree, v: Word, l: nat, r: Rights)
    requires Wf(mem, tree) && l < 3 && Prefix(v, l) in tree && Prefix(v, l + 1) in tree
    requires CellOf(mem', tree, v, l) == CellOf(mem, tree, v, l)
    ensures var e := CellOf(mem, tree, v, l);
            Resolve(mem', l, e, v, r) == Resolve(mem', l + 1, CellOf(mem', tree, v, l + 1), v, Restrict(r, e))
  {
    hide Index, Frame, Restrict, Present, Huge;
    var e := CellOf(mem, tree, v, l);
    assert CellOk(tree, Prefix(v, l), Index(v, l), e);
    assert Prefix(v, l + 1) == Prefix(v, l) + [Index(v, l)];
  }

  /** The whole effect of a write to the cell (p, i) on the meaning of v. */
  lemma Effect(mem: Memory, mem': Memory, tree: Tree, p: Path, i: nat, v: Word)
    requires Wf(mem, tree) && SameElsewhere(mem, mem', tree, p, i) && p in tree && i < 512
    ensures Prefix(v, |p| + 1) != p + [i] ==> Walk(mem', tree[[]], v) == Walk(mem, tree[[]], v)
    ensures Prefix(v, |p| + 1) == p + [i] ==>
              var r := RightsTo(mem, tree, v, |p|);
              && Walk(mem, tree[[]], v) == Resolve(mem, |p|, mem[tree[p]][i], v, r)
              && Walk(mem', tree[[]], v) == Resolve(mem', |p|, mem'[tree[p]][i], v, r)
  {
    hide Index, Resolve, CellOk, Cells, CellOf, RightsTo, SameElsewhere, Prefix;
    if Prefix(v, |p| + 1) != p + [i] {
      RootCell(mem, tree, v);
      RootCell(mem', tree, v);
      assert Prefix(v, 0) == [];
      Elsewhere(mem, mem', tree, p, i, v, 0, ALL_RIGHTS);
    } else {
      OwnCell(mem, mem', tree, p, i, v);
      Along(mem, mem', tree, p, i, v, |p|);
      SameElsewhereRefl(mem, tree, p, i);
      Along(mem, mem, tree, p, i, v, |p|);
    }
  }

  lemma SameElsewhereRefl(mem: Memory, tree: Tree, p: Path, i: nat)
    requires Wf(mem, tree)
    ensures SameElsewhere(mem, mem, tree, p, i)
  {
    hide Cells;
  }

  /** The cell an address through (p, i) selects at p's level is (p, i). */
  lemma OwnCell(mem: Memory, mem': Memory, tree: Tree, p: Path, i: nat, v: Word)
    requires |p| <= 3 && p in tree && i < 512 && Prefix(v, |p| + 1) == p + [i]
    requires SameElsewhere(mem, mem', tree, p, i)
    ensures Prefix(v, |p|) == p && tree[p] in mem && tree[p] in mem'
    ensures CellOf(mem, tree, v, |p|) == mem[tree[p]][i] && CellOf(mem', tree, v, |p|) == mem'[tree[p]][i]
  {
    hide Index;
    var l := |p|;
    assert Prefix(v, l + 1)[..l] == Prefix(v, l) && (p + [i])[..l] == p;
    assert Prefix(v, l + 1)[l] == Index(v, l) && (p + [i])[l] == i;
  }

  // ---------- the kernel's writes ----------

  /** Writing a leaf entry, or clearing one: no table is added or removed. */
  lemma StepCell(mem: Memory, tree: Tree, p: Path, i: nat, e: Word)
    requires Wf(mem, tree) && p in tree && i < 512
    requires p + [i] !in tree && CellOk(tree, p, i, e)
    ensures Wf(SetEntry(mem, tree[p], i, e), tree)
    ensures SameElsewhere(mem, SetEntry(mem, tree[p], i, e), tree, p, i)
  {
    hide CellOk, SetEntry, SameElsewhere;
    var mem' := SetEntry(mem, tree[p], i, e);
    SetElsewhere(mem, tree, p, i, e);
    forall q, j | q in tree && 0 <= j < 512 ensures CellOk(tree, q, j, mem'[tree[q]][j]) {
      SetCell(mem, tree, p, i, e, q, j);
    }
  }

  lemma SetElsewhere(mem: Memory, tree: Tree, p: Path, i: nat, e: Word)
    requires Shape(mem, tree) && p in tree && i < 512
    ensures Shape(SetEntry(mem, tree[p], i, e), tree)
    ensures SameElsewhere(mem, SetEntry(mem, tree[p], i, e), tree, p, i)
  {
  }

  lemma SetCell(mem: Memory, tree: Tree, p: Path, i: nat, e: Word, q: Path, j: nat)
    requires Shape(mem, tree) && p in tree && i < 512 && q in tree && j < 512
    ensures tree[q] in SetEntry(mem, tree[p], i, e)
    ensures SetEntry(mem, tree[p], i, e)[tree[q]][j] == if q == p && j == i then e else mem[tree[q]][j]
  {
  }

  /** The tables above a cell decide the rights that reach it; writing it leaves them alone. */
  lemma {:induction false} RightsKept(mem: Memory, mem': Memory, tree: Tree, p: Path, i: nat, v: Word, l: nat)
    requires SameElsewhere(mem, mem', tree, p, i) && l <= |p| <= 3
    ensures RightsTo(mem', tree, v, l) == RightsTo(mem, tree, v, l)
  {
    hide Restrict;
    if l != 0 {
      RightsKept(mem, mem', tree, p, i, v, l - 1);
      assert CellOf(mem', tree, v, l - 1) == CellOf(mem, tree, v, l - 1);
    }
  }

  /** The meaning of every address after a leaf entry of a page table has been written. */
  lemma LeafWrite(mem: Memory, tree: Tree, p: Path, i: nat, e: Word, w: Word)
    requires Wf(mem, tree) && p in tree && |p| == 3 && i < 512 && !Huge(e)
    ensures var mem' := SetEntry(mem, tree[p], i, e);
            && Wf(mem', tree)
            && Walk(mem', tree[[]], w) ==
               if Prefix(w, 4) != p + [i] then Walk(mem, tree[[]], w)
               else if Present(e) then Hit(LeafPhys(3, e, w), Restrict(RightsTo(mem', tree, w, 3), e))
               else Fault
  {
    hide CellOk, Present, Huge, Walk, Restrict, LeafPhys;
    var mem' := SetEntry(mem, tree[p], i, e);
    LeafCellOk(tree, p, i, e);
    StepCell(mem, tree, p, i, e);
    Effect(mem, mem', tree, p, i, w);
    RightsKept(mem, mem', tree, p, i, w, 3);
  }

  lemma LeafCellOk(tree: Tree, p: Path, i: nat, e: Word)
    requires (forall q :: q in tree ==> |q| <= 3) && |p| == 3 && !Huge(e)
    ensures p + [i] !in tree && CellOk(tree, p, i, e)
  {
    assert |p + [i]| == 4;
  }

  lemma PathEnds(p: Path, i: nat, q: Path, j: nat)
    ensures p + [i] == q + [j] <==> p == q && i == j
  {
    if p + [i] == q + [j] {
      assert (p + [i])[..|p|] == p && (q + [j])[..|q|] == q;
      assert (p + [i])[|p|] == i;
    }
  }

  /** An entry pointing at the table in frame g. */
  function Link(g: nat, flags: Word): Word
    requires g < FRAME_LIMIT
  {
    FrameWord(g) | flags
  }

  lemma OrBits(w: Word, flags: Word)
    requires w & !PAGE_MASK == 0
    ensures (w | flags) & PRESENT == flags & PRESENT && (w | flags) & HUGE == flags & HUGE
    ensures (w | flags) & WRITABLE == flags & WRITABLE && (w | flags) & USER == flags & USER
    ensures (w | flags) & NO_EXEC == flags & NO_EXEC
  {
  }

  lemma LinkFrame(g: nat, flags: Word)
    requires g < FRAME_LIMIT && flags & PAGE_MASK == 0
    ensures Frame(Link(g, flags)) == g
  {
    hide Frame, FrameWord;
    FrameRoundTrip(g);
    FrameIgnoresFlags(FrameWord(g), flags);
  }

  lemma LinkWord(g: nat, flags: Word)
    requires g < FRAME_LIMIT && flags & PAGE_MASK == 0
    ensures var e := Link(g, flags);
            && Frame(e) == g
            && e & PRESENT == flags & PRESENT && e & HUGE == flags & HUGE && e & WRITABLE == flags & WRITABLE
            && e & USER == flags & USER && e & NO_EXEC == flags & NO_EXEC
  {
    hide Frame, FrameWord;
    LinkFrame(g, flags);
    FrameRoundTrip(g);
    OrBits(FrameWord(g), flags);
  }

  /** The memory after table t has been put in frame g and linked from the cell (p, i). */
  ghost function Linked(mem: Memory, tree: Tree, p: Path, i: nat, g: nat, t: Table, e: Word): Memory
    requires p in tree && tree[p] in mem && i < 512
  {
    SetEntry(mem[g := t], tree[p], i, e)
  }

  /** A fresh frame, in no table of the tree. */
  ghost predicate Fresh(tree: Tree, g: nat) {
    0 < g < FRAME_LIMIT && forall q :: q in tree ==> tree[q] != g
  }

  ghost predicate LinkOk(mem: Memory, tree: Tree, p: Path, i: nat, g: nat, t: Table, e: Word) {
    && Wf(mem, tree) && p in tree && |p| < 3 && i < 512 && p + [i] !in tree
    && Fresh(tree, g)
    && Present(e) && !Huge(e) && Frame(e) == g
    && (forall j :: 0 <= j < 512 ==> (Present(t[j]) ==> |p| == 2) && !Huge(t[j]))
  }

  lemma LinkElsewhere(mem: Memory, tree: Tree, p: Path, i: nat, g: nat, t: Table, e: Word)
    requires LinkOk(mem, tree, p, i, g, t, e)
    ensures SameElsewhere(mem, Linked(mem, tree, p, i, g, t, e), tree, p, i)
  {
    hide CellOk;
    var mem' := Linked(mem, tree, p, i, g, t, e);
    forall q, j | q in tree && 0 <= j < 512 && !(q == p && j == i)
      ensures mem'[tree[q]][j] == mem[tree[q]][j]
    {
    }
  }

  lemma GrownCell(tree: Tree, p: Path, i: nat, g: nat, q: Path, j: nat, e: Word)
    requires |q| <= 3 && (p + [i] == q + [j] <==> p == q && i == j)
    requires if q == p && j == i then |p| < 3 && Present(e) && !Huge(e) && Frame(e) == g else CellOk(tree, q, j, e)
    ensures CellOk(tree[p + [i] := g], q, j, e)
  {
  }

  lemma LinkCell(mem: Memory, tree: Tree, p: Path, i: nat, g: nat, t: Table, e: Word, q: Path, j: nat)
    requires LinkOk(mem, tree, p, i, g, t, e) && q in tree && j < 512
    ensures CellOk(tree[p + [i] := g], q, j, Linked(mem, tree, p, i, g, t, e)[tree[q]][j])
  {
    PathEnds(p, i, q, j);
    var e' := Linked(mem, tree, p, i, g, t, e)[tree[q]][j];
    LinkElsewhere(mem, tree, p, i, g, t, e);
    assert e' == if q == p && j == i then e else mem[tree[q]][j];
    GrownCell(tree, p, i, g, q, j, e');
  }

  lemma LinkedCell(mem: Memory, tree: Tree, p: Path, i: nat, g: nat, t: Table, e: Word, j: nat)
    requires LinkOk(mem, tree, p, i, g, t, e) && j < 512
    ensures CellOk(tree[p + [i] := g], p + [i], j, t[j])
  {
    var q := p + [i];
    assert (q + [j])[..|q|] == q;
    assert q + [j] !in tree;
    assert q + [j] != q;
  }

  lemma LinkShape(mem: Memory, tree: Tree, p: Path, i: nat, g: nat, t: Table, e: Word)
    requires LinkOk(mem, tree, p, i, g, t, e)
    ensures Shape(Linked(mem, tree, p, i, g, t, e), tree[p + [i] := g])
  {
    hide Cells, CellOk, Present, Huge, Frame;
    assert (p + [i])[..|p|] == p;
  }

  /** Linking a table with no children keeps the tree well formed and touches nothing else. */
  lemma LinkKeepsWf(mem: Memory, tree: Tree, p: Path, i: nat, g: nat, t: Table, e: Word)
    requires LinkOk(mem, tree, p, i, g, t, e)
    ensures Wf(Linked(mem, tree, p, i, g, t, e), tree[p + [i] := g])
  {
    hide CellOk, Present, Huge, Frame;
    LinkShape(mem, tree, p, i, g, t, e);
    var mem', tree' := Linked(mem, tree, p, i, g, t, e), tree[p + [i] := g];
    forall q, j | q in tree' && 0 <= j < 512
      ensures CellOk(tree', q, j, mem'[tree'[q]][j])
    {
      if q == p + [i] {
        LinkedTable(mem, tree, p, i, g, t, e);
        LinkedCell(mem, tree, p, i, g, t, e, j);
      } else {
        LinkCell(mem, tree, p, i, g, t, e, q, j);
      }
    }
  }

  lemma LinkedTable(mem: Memory, tree: Tree, p: Path, i: nat, g: nat, t: Table, e: Word)
    requires LinkOk(mem, tree, p, i, g, t, e)
    ensures g in Linked(mem, tree, p, i, g, t, e) && Linked(mem, tree, p, i, g, t, e)[g] == t
  {
  }

  lemma EmptyResolves(mem: Memory, mem': Memory, l: nat, e0: Word, e: Word, v: Word, r: Rights)
    requires l < 3 && !Present(e0) && Present(e) && !Huge(e)
    requires Frame(e) in mem' && mem'[Frame(e)] == ZeroTable()
    ensures Resolve(mem, l, e0, v, r) == Resolve(mem', l, e, v, r)
  {
    var z := Entry(mem', Frame(e), Index(v, l + 1));
    assert z == 0;
    assert Resolve(mem', l + 1, z, v, Restrict(r, e)) == Fault;
  }

  /** Linking an empty table under an absent entry changes the meaning of no address. */
  lemma EmptyLinkKeepsMeaning(mem: Memory, tree: Tree, p: Path, i: nat, g: nat, e: Word, v: Word)
    requires LinkOk(mem, tree, p, i, g, ZeroTable(), e) && !Present(mem[tree[p]][i])
    ensures Walk(Linked(mem, tree, p, i, g, ZeroTable(), e), tree[[]], v) == Walk(mem, tree[[]], v)
  {
    hide CellOk, Present, Huge, Frame, Walk, Resolve, ZeroTable;
    var mem' := Linked(mem, tree, p, i, g, ZeroTable(), e);
    LinkElsewhere(mem, tree, p, i, g, ZeroTable(), e);
    LinkedTable(mem, tree, p, i, g, ZeroTable(), e);
    Effect(mem, mem', tree, p, i, v);
    if Prefix(v, |p| + 1) == p + [i] {
      EmptyResolves(mem, mem', |p|, mem[tree[p]][i], e, v, RightsTo(mem, tree, v, |p|));
    }
  }

  // ---------- splitting a 2 MB page ----------

  /** The flags the split hands down to the 4 KB entries. */
  function SplitFlags(h: Word): Word { h & !(PAGE_MASK | HUGE | ACCESSED | DIRTY) }

  /** The 4 KB entry for the d-th page of a 2 MB page. */
  function Piece(h: Word, d: bv9): Word {
    ((h & PAGE_MASK) + (d as Word) * 4096) | SplitFlags(h)
  }

  function SplitEntry(h: Word, k: nat): Word
    requires k < 512
  {
    Piece(h, Digit(k))
  }

  function SplitTable(h: Word): Table {
    seq(512, k requires 0 <= k < 512 => SplitEntry(h, k))
  }

  function SplitLinkFlags(h: Word): Word { TABLE_FLAGS | (h & GLOBAL) }

  lemma SplitLinkBits(h: Word)
    ensures var f := SplitLinkFlags(h);
            && f & PAGE_MASK == 0 && Present(f) && !Huge(f)
            && f & WRITABLE != 0 && f & USER != 0 && f & NO_EXEC == 0
  {
  }

  /** The 4 KB entry for v inside the split page leads where the 2 MB entry led,
      with the same flags. */
  lemma SplitEntryBits(h: Word, v: Word)
    requires Huge(h) && Present(h) && h & PAGE_MASK & OffsetMask(2) == 0
    ensures var s := SplitEntry(h, Index(v, 3));
            && LeafPhys(3, s, v) == LeafPhys(2, h, v)
            && s & WRITABLE == h & WRITABLE && s & USER == h & USER && s & NO_EXEC == h & NO_EXEC
  {
    hide LeafPhys, SplitFlags, Bits, Digit, OffsetMask, Huge, Present, Piece;
    SplitEntryBitsAt(h, v, Bits(v, 3));
  }

  lemma SplitEntryBitsAt(h: Word, v: Word, d: bv9)
    requires Huge(h) && Present(h) && h & PAGE_MASK & OffsetMask(2) == 0 && d == Bits(v, 3)
    ensures var s := Piece(h, d);
            && LeafPhys(3, s, v) == LeafPhys(2, h, v)
            && s & WRITABLE == h & WRITABLE && s & USER == h & USER && s & NO_EXEC == h & NO_EXEC
  {
  }

  lemma SplitFlagBits(h: Word, k: nat)
    requires Huge(h) && Present(h) && k < 512
    ensures Present(SplitEntry(h, k)) && !Huge(SplitEntry(h, k))
  {
    SplitFlagBitsAt(h, Digit(k));
  }

  lemma SplitFlagBitsAt(h: Word, d: bv9)
    requires Huge(h) && Present(h)
    ensures var s := Piece(h, d); Present(s) && !Huge(s)
  {
  }

  lemma SplitLinkOk(mem: Memory, tree: Tree, p: Path, i: nat, g: nat)
    requires Wf(mem, tree) && p in tree && |p| == 2 && i < 512 && Huge(mem[tree[p]][i]) && Fresh(tree, g)
    ensures var h := mem[tree[p]][i];
            LinkOk(mem, tree, p, i, g, SplitTable(h), Link(g, SplitLinkFlags(h)))
  {
    var h := mem[tree[p]][i];
    assert CellOk(tree, p, i, h);
    hide Frame, Link, SplitEntry, SplitLinkFlags;
    SplitLinkBits(h);
    LinkWord(g, SplitLinkFlags(h));
    forall j | 0 <= j < 512 ensures !Huge(SplitTable(h)[j]) {
      SplitFlagBits(h, j);
    }
  }

  /** Splitting a 2 MB page into 512 entries changes the meaning of no address:
      neither its physical address nor its effective rights. */
  lemma SplitKeepsMeaning(mem: Memory, tree: Tree, p: Path, i: nat, g: nat, v: Word)
    requires Wf(mem, tree) && p in tree && |p| == 2 && i < 512 && Huge(mem[tree[p]][i]) && Fresh(tree, g)
    ensures var h := mem[tree[p]][i];
            Walk(Linked(mem, tree, p, i, g, SplitTable(h), Link(g, SplitLinkFlags(h))), tree[[]], v) ==
                Walk(mem, tree[[]], v)
  {
    var h := mem[tree[p]][i];
    var mem' := Linked(mem, tree, p, i, g, SplitTable(h), Link(g, SplitLinkFlags(h)));
    SplitLinkOk(mem, tree, p, i, g);
    LinkElsewhere(mem, tree, p, i, g, SplitTable(h), Link(g, SplitLinkFlags(h)));
    LinkedTable(mem, tree, p, i, g, SplitTable(h), Link(g, SplitLinkFlags(h)));
    Effect(mem, mem', tree, p, i, v);
    if Prefix(v, 3) == p + [i] {
      assert CellOk(tree, p, i, h);
      SplitLinkBits(h);
      LinkWord(g, SplitLinkFlags(h));
      SplitResolves(mem, mem', h, Link(g, SplitLinkFlags(h)), v, RightsTo(mem, tree, v, 2));
    }
  }

  lemma SplitResolves(mem: Memory, mem': Memory, h: Word, e: Word, v: Word, r: Rights)
    requires Huge(h) && Present(h) && h & PAGE_MASK & OffsetMask(2) == 0
    requires Present(e) && !Huge(e) && Frame(e) in mem' && mem'[Frame(e)] == SplitTable(h)
    requires e & WRITABLE != 0 && e & USER != 0 && e & NO_EXEC == 0
    ensures Resolve(mem', 2, e, v, r) == Resolve(mem, 2, h, v, r)
  {
    SplitEntryBits(h, v);
    SplitFlagBits(h, Index(v, 3));
    assert Entry(mem', Frame(e), Index(v, 3)) == SplitEntry(h, Index(v, 3));
  }
}
