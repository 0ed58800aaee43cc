/** Which tables the nested loops of destroy_address_space have passed: set algebra on trees. */
module Teardown {
  import opened Words
  import opened Paging
  import opened Mapping

  /** The tables at and below path q. */
  ghost function Under(tree: Tree, q: Path): set<Path> {
    set p | p in tree && q <= p
  }

  /** The tables below the entries 0 to k - 1 of the table at q. */
  ghost function Before(tree: Tree, q: Path, k: nat): set<Path> {
    set p | p in tree && |q| < |p| && q <= p && p[|q|] < k
  }

  /** The frames of a set of tables. */
  ghost function Frames(tree: Tree, paths: set<Path>): set<nat> {
    set p | p in paths && p in tree :: tree[p]
  }

  ghost predicate PrefixClosed(tree: Tree) {
    forall p :: p in tree && p != [] ==> p[..|p| - 1] in tree && p[|p| - 1] < 512
  }

  ghost predicate Injective(tree: Tree) {
    forall p, q :: p in tree && q in tree && tree[p] == tree[q] ==> p == q
  }

  lemma FramesUnion(tree: Tree, a: set<Path>, b: set<Path>)
    ensures Frames(tree, a + b) == Frames(tree, a) + Frames(tree, b)
  {
  }

  lemma FramesOfOne(tree: Tree, q: Path)
    requires q in tree
    ensures Frames(tree, {q}) == {tree[q]}
  {
  }

  /** A table outside the set lies in none of its frames. */
  lemma FrameOutside(tree: Tree, paths: set<Path>, q: Path)
    requires Injective(tree) && q in tree && q !in paths
    ensures tree[q] !in Frames(tree, paths)
  {
  }

  /** Every prefix of a path of the tree is a path of the tree. */
  lemma {:induction false} PrefixIn(tree: Tree, p: Path, n: nat)
    requires PrefixClosed(tree) && p in tree && n <= |p|
    ensures p[..n] in tree
    ensures n < |p| ==> p[n] < 512
    decreases |p|
  {
    if n == |p| {
      assert p[..n] == p;
    } else if n < |p| - 1 {
      var p' := p[..|p| - 1];
      PrefixIn(tree, p', n);
      assert p'[..n] == p[..n];
    }
  }

  lemma Passed(q: Path, k: nat, p: Path)
    ensures q + [k] <= p <==> |q| < |p| && q <= p && p[|q|] == k
  {
  }

  lemma BeforeStep(tree: Tree, q: Path, k: nat)
    ensures Before(tree, q, k + 1) == Before(tree, q, k) + Under(tree, q + [k])
  {
    forall p | p in tree ensures p in Before(tree, q, k + 1) <==> p in Before(tree, q, k) + Under(tree, q + [k]) {
      Passed(q, k, p);
    }
  }

  lemma PrefixOf(tree: Tree, p: Path, q: Path)
    requires PrefixClosed(tree) && p in tree && q <= p
    ensures q in tree
  {
    PrefixIn(tree, p, |q|);
    assert p[..|q|] == q;
  }

  lemma NothingUnder(tree: Tree, q: Path)
    requires PrefixClosed(tree) && q !in tree
    ensures Under(tree, q) == {}
  {
    if p :| p in Under(tree, q) {
      PrefixOf(tree, p, q);
    }
  }

  lemma UnderWhole(tree: Tree, q: Path)
    requires PrefixClosed(tree) && q in tree
    ensures Under(tree, q) == Before(tree, q, 512) + {q}
  {
    forall p | p in tree && q <= p ensures p == q || p in Before(tree, q, 512) {
      if |p| == |q| {
        assert p == q;
      } else {
        PrefixIn(tree, p, |q|);
      }
    }
  }

  /** Nothing lies below a page table. */
  lemma DeepestAlone(tree: Tree, q: Path)
    requires q in tree && |q| == 3 && forall p :: p in tree ==> |p| <= 3
    ensures Under(tree, q) == {q}
  {
    forall p | p in tree && q <= p ensures p == q {
    }
  }

  /** The tables destroy_address_space gives back: those of the lower half and the root. */
  ghost function LowerHalf(tree: Tree): set<nat> {
    Frames(tree, Before(tree, [], 256) + {[]})
  }

  /** An address space whose tables all serve the lower half loses all its tables. */
  lemma AllLower(tree: Tree)
    requires [] in tree && forall p :: p in tree && p != [] ==> p[0] < 256
    ensures LowerHalf(tree) == Tables(tree)
  {
    var none: Path := [];
    forall p | p in tree ensures p in Before(tree, [], 256) + {[]} {
      if p != [] {
        assert none <= p && p[|none|] < 256;
      }
    }
  }

  ghost predicate TreeOk(tree: Tree) {
    PrefixClosed(tree) && Injective(tree) && forall p :: p in tree ==> |p| <= 3
  }

  lemma FramesApart(tree: Tree, a: set<Path>, b: set<Path>)
    requires Injective(tree) && a !! b
    ensures Frames(tree, a) !! Frames(tree, b)
  {
  }

  /** One turn of a teardown loop: the tables under entry k join those already passed. */
  lemma LoopStep(tree: Tree, q: Path, k: nat)
    requires TreeOk(tree)
    ensures Frames(tree, Before(tree, q, k + 1)) == Frames(tree, Before(tree, q, k)) +
            Frames(tree, Under(tree, q + [k]))
    ensures Frames(tree, Under(tree, q + [k])) !! Frames(tree, Before(tree, q, k))
    ensures q + [k] !in tree ==> Frames(tree, Under(tree, q + [k])) == {}
    ensures q + [k] in tree && |q| == 2 ==> Frames(tree, Under(tree, q + [k])) == {tree[q + [k]]}
  {
    BeforeStep(tree, q, k);
    FramesUnion(tree, Before(tree, q, k), Under(tree, q + [k]));
    assert Under(tree, q + [k]) !! Before(tree, q, k);
    FramesApart(tree, Under(tree, q + [k]), Before(tree, q, k));
    if q + [k] !in tree {
      NothingUnder(tree, q + [k]);
    } else if |q| == 2 {
      DeepestAlone(tree, q + [k]);
      FramesOfOne(tree, q + [k]);
    }
  }

  lemma LoopStart(tree: Tree, q: Path)
    ensures Frames(tree, Before(tree, q, 0)) == {}
  {
  }

  lemma LoopInside(tree: Tree, q: Path, k: nat)
    requires k < 512
    ensures Frames(tree, Under(tree, q + [k])) <= Frames(tree, Under(tree, q))
  {
    forall p | p in Under(tree, q + [k]) ensures p in Under(tree, q) {
      Passed(q, k, p);
    }
  }

  lemma LoopEnd(tree: Tree, q: Path)
    requires TreeOk(tree) && q in tree
    ensures Frames(tree, Under(tree, q)) == Frames(tree, Before(tree, q, 512)) + {tree[q]}
    ensures tree[q] !in Frames(tree, Before(tree, q, 512))
  {
    UnderWhole(tree, q);
    FramesUnion(tree, Before(tree, q, 512), {q});
    FramesOfOne(tree, q);
    FrameOutside(tree, Before(tree, q, 512), q);
  }

  lemma WfTreeOk(mem: Memory, tree: Tree)
    requires Wf(mem, tree)
    ensures TreeOk(tree)
  {
  }

  lemma LowerHalfEnd(tree: Tree)
    requires TreeOk(tree) && [] in tree
    ensures LowerHalf(tree) == Frames(tree, Before(tree, [], 256)) + {tree[[]]}
    ensures tree[[]] !in Frames(tree, Before(tree, [], 256))
  {
    FramesUnion(tree, Before(tree, [], 256), {[]});
    FramesOfOne(tree, []);
    FrameOutside(tree, Before(tree, [], 256), []);
  }

  lemma LowerHalfInside(tree: Tree, k: nat)
    requires k < 256
    ensures Frames(tree, Under(tree, [] + [k])) <= LowerHalf(tree)
  {
    var none: Path := [];
    forall p | p in Under(tree, [] + [k]) ensures p in Before(tree, [], 256) {
      Passed(none, k, p);
    }
  }
}
