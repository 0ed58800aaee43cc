/** What is_user_range_mapped looks at, against what the processor lets user code do. */
module UserAccess {
  import opened Words
  import opened Paging
  import opened Mapping

  /** The last entry walk_or_create fetches for w without creating anything; 0 if it gives up. */
  ghost function LeafCell(mem: Memory, tree: Tree, w: Word): Word {
    if Prefix(w, 3) in tree then CellOf(mem, tree, w, 3)
    else if Big(mem, tree, w) then CellOf(mem, tree, w, 2)
    else 0
  }

  ghost predicate UserLeaf(mem: Memory, tree: Tree, w: Word) {
    Present(LeafCell(mem, tree, w)) && LeafCell(mem, tree, w) & USER != 0
  }

  /** The rights the tables above the leaf leave. */
  ghost function UpperRights(mem: Memory, tree: Tree, w: Word): Rights {
    RightsTo(mem, tree, w, if Prefix(w, 3) in tree then 3 else 2)
  }

  lemma LeafCellFound(mem: Memory, tree: Tree, p: Path, i: nat, v: Word)
    requires LeafAt(mem, tree, p, i, v)
    ensures LeafCell(mem, tree, v) == mem[tree[p]][i]
    ensures UpperRights(mem, tree, v) == RightsTo(mem, tree, v, |p|)
  {
    hide Cells, Present, Huge, Giant, Restrict, Frame;
    LeafPath(mem, tree, p, i, v);
    EntryFacts(mem, tree, p, i);
    PrefixZero(v);
  }

  /** Where the walk gives up there is no present leaf. */
  lemma LeafCellAbsent(mem: Memory, tree: Tree, v: Word)
    requires Wf(mem, tree) && (Giant(mem, tree, v) || Walk(mem, tree[[]], v) == Fault)
    ensures !Present(LeafCell(mem, tree, v))
  {
    if Prefix(v, 3) in tree || Big(mem, tree, v) {
      var l := if Prefix(v, 3) in tree then 3 else 2;
      LeafAtPrefix(mem, tree, v, l);
      LeafPath(mem, tree, Prefix(v, l), Index(v, l), v);
      LeafRead(mem, tree, Prefix(v, l), Index(v, l), v);
    }
  }

  lemma LeafAtPrefix(mem: Memory, tree: Tree, v: Word, l: nat)
    requires Wf(mem, tree) && ((l == 3 && Prefix(v, 3) in tree) || (l == 2 && Big(mem, tree, v)))
    ensures LeafAt(mem, tree, Prefix(v, l), Index(v, l), v)
  {
    hide Cells, Present, Huge, Frame;
    PrefixZero(v);
  }

  /** User code may touch v. */
  ghost predicate UserCan(mem: Memory, root: nat, v: Word) {
    Walk(mem, root, v).Hit? && Walk(mem, root, v).rights.user
  }

  /** Outside 1 GB pages, user code may touch an address exactly when its leaf passes the test
      and every table above it carries the user bit as well. */
  lemma UserReachable(mem: Memory, tree: Tree, v: Word)
    requires Wf(mem, tree) && !Giant(mem, tree, v)
    ensures UserCan(mem, tree[[]], v) <==> UserLeaf(mem, tree, v) && UpperRights(mem, tree, v).user
  {
    hide Cells, Walk, LeafPhys, Frame, Giant;
    if Prefix(v, 3) in tree || Big(mem, tree, v) {
      var l := if Prefix(v, 3) in tree then 3 else 2;
      LeafAtPrefix(mem, tree, v, l);
      LeafCellFound(mem, tree, Prefix(v, l), Index(v, l), v);
      LeafRead(mem, tree, Prefix(v, l), Index(v, l), v);
    } else {
      NoLeafFaults(mem, tree, v);
    }
  }

  /** Without a leaf and outside 1 GB pages the walk finds nothing. */
  lemma NoLeafFaults(mem: Memory, tree: Tree, v: Word)
    requires Wf(mem, tree) && !Giant(mem, tree, v) && !Big(mem, tree, v) && Prefix(v, 3) !in tree
    ensures Walk(mem, tree[[]], v) == Fault
  {
    hide Cells, Walk, Huge, Present, Frame;
    PrefixZero(v);
    var l := if Prefix(v, 1) !in tree then 0 else if Prefix(v, 2) !in tree then 1 else 2;
    EntryFacts(mem, tree, Prefix(v, l), Index(v, l));
    AbsentFaults(mem, tree, v, l);
  }

  /** The leaf test fails under a 1 GB page, whatever user code may do there. */
  lemma UserLeafSmall(mem: Memory, tree: Tree, v: Word)
    requires Wf(mem, tree) && UserLeaf(mem, tree, v)
    ensures !Giant(mem, tree, v)
  {
    hide Cells, Walk, Present;
    if Giant(mem, tree, v) {
      LeafCellAbsent(mem, tree, v);
    }
  }

  /** User code may touch each page from lo to hi exactly as far as the tables above allow. */
  ghost predicate UserCanAll(mem: Memory, tree: Tree, lo: nat, hi: nat)
    requires [] in tree
  {
    forall w :: lo <= Frame(w) <= hi ==> (UserCan(mem, tree[[]], w) <==> UpperRights(mem, tree, w).user)
  }

  /** Addresses of one page share their leaf. */
  lemma SamePageSameLeaf(mem: Memory, tree: Tree, v: Word, w: Word)
    requires SamePage(v, w)
    ensures LeafCell(mem, tree, w) == LeafCell(mem, tree, v)
  {
    hide Index, SamePage, Huge;
    SamePageSamePath(v, w);
    SamePathSameIndices(v, w);
    PrefixZero(v);
    PrefixZero(w);
    assert Prefix(w, 1) == Prefix(v, 1);
    assert Prefix(w, 2) == Prefix(v, 2);
    assert Prefix(w, 3) == Prefix(v, 3);
  }
}
