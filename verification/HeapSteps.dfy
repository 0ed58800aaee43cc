/** The four changes that the heap makes to its blocks: taking a free block whole, taking a part
    of it, freeing a block, and joining two free neighbours. Each keeps the invariant. */
module HeapSteps {
  import opened FreeList
  import opened HeapBlocks

  lemma ElementsWithout(l: seq<nat>, k: nat)
    requires k < |l| && Distinct(l)
    ensures Elements(Without(l, k)) == Elements(l) - {l[k]}
  {
    hide Distinct;
    WithoutElements(l, k);
  }

  lemma ElementsPush(l: seq<nat>, x: nat)
    ensures Elements([x] + l) == Elements(l) + {x}
  {
  }

  lemma One(H: nat, b: Block)
    requires b.size > 0
    ensures Tiles(H, [b], b.addr, b.addr + BlockTotal(H, b.size))
    ensures FreeAddrs(H, [b]) == if b.used then {} else {b.addr + H}
    ensures Live([b]) == if b.used then {b} else {}
  {
    hide BlockTotal;
    assert [b][1..] == [];
  }

  lemma Two(H: nat, b: Block, c: Block)
    requires b.size > 0 && c.size > 0 && c.addr == b.addr + BlockTotal(H, b.size)
    ensures Tiles(H, [b, c], b.addr, c.addr + BlockTotal(H, c.size))
    ensures FreeAddrs(H, [b, c]) == FreeAddrs(H, [b]) + FreeAddrs(H, [c])
    ensures Live([b, c]) == Live([b]) + Live([c])
  {
    hide BlockTotal, Tiles, FreeAddrs;
    One(H, b);
    One(H, c);
    assert [b, c] == [b] + [c];
    TilesJoin(H, [b], [c], b.addr, c.addr, c.addr + BlockTotal(H, c.size));
    FreeJoin(H, [b], [c]);
  }

  /** A block and the blocks on its two sides. */
  lemma Around(H: nat, bs: seq<Block>, start: nat, end: nat, i: nat)
    requires Tiles(H, bs, start, end) && i < |bs|
    ensures bs[i].size > 0 && bs == bs[..i] + [bs[i]] + bs[i + 1..]
    ensures Tiles(H, bs[..i], start, bs[i].addr) && Tiles(H, bs[i + 1..], bs[i].addr + BlockTotal(H, bs[i].size), end)
  {
    hide BlockTotal;
    assert bs == bs[..i] + bs[i..];
    var mid := TilesCut(H, bs[..i], bs[i..], start, end);
    assert bs[i..][0] == bs[i] && bs[i..][1..] == bs[i + 1..];
  }

  /** A block, its next one, and the blocks on their two sides. */
  lemma AroundTwo(H: nat, bs: seq<Block>, start: nat, end: nat, i: nat)
    requires Tiles(H, bs, start, end) && i + 1 < |bs|
    ensures bs[i].size > 0 && bs[i + 1].size > 0 && bs[i + 1].addr == bs[i].addr + BlockTotal(H, bs[i].size)
    ensures bs == bs[..i] + [bs[i], bs[i + 1]] + bs[i + 2..]
    ensures Tiles(H, bs[..i], start, bs[i].addr)
    ensures Tiles(H, bs[i + 2..], bs[i + 1].addr + BlockTotal(H, bs[i + 1].size), end)
  {
    hide BlockTotal;
    Around(H, bs, start, end, i);
    Around(H, bs[i + 1..], bs[i].addr + BlockTotal(H, bs[i].size), end, 0);
    assert bs[i + 1..][0] == bs[i + 1] && bs[i + 1..][0 + 1..] == bs[i + 2..];
  }

  /** Blocks m' in place of m, with the list changed to match, keep the invariant. */
  lemma Assemble(s: Layout,
                 a: seq<Block>, m: seq<Block>, m': seq<Block>, b: seq<Block>, p: nat, q: nat,
                 hdr': map<nat, Header>, node': map<nat, Node>, head': nat, l': seq<nat>)
    requires Inv(s) && s.bs == a + m + b
    requires Tiles(s.H, a, s.start, p) && Tiles(s.H, m, p, q) && Tiles(s.H, m', p, q) && Tiles(s.H, b, q, s.end)
    requires Headers(hdr', m') && forall x :: x in s.hdr && !(p <= x < q) ==> x in hdr' && hdr'[x] == s.hdr[x]
    requires Linked(node', head', l') && Elements(l') == Elements(s.l) - FreeAddrs(s.H, m) + FreeAddrs(s.H, m')
    ensures Inv(s.(hdr := hdr', node := node', head := head', bs := a + m' + b, l := l'))
    ensures Live(s.bs) == Live(a) + Live(m) + Live(b) && Live(a + m' + b) == Live(a) + Live(m') + Live(b)
  {
    hide BlockTotal, Tiles, Headers, FreeAddrs, Live, Linked;
    Rebuild(s.H, s.start, s.end, s.hdr, hdr', a, m, m', b, p, q, Elements(s.l));
  }

  // ---------- taking ----------

  /** The blocks after block i is taken whole. */
  ghost function TakenWhole(bs: seq<Block>, i: nat): seq<Block>
    requires i < |bs|
  {
    bs[..i] + [bs[i].(used := true)] + bs[i + 1..]
  }

  lemma TakeWhole(s: Layout, i: nat, k: nat)
    requires Inv(s) && i < |s.bs| && k < |s.l| && !s.bs[i].used && s.l[k] == s.bs[i].addr + s.H && s.l[k] in s.node
    ensures var hdr' := s.hdr[s.bs[i].addr := Header(s.bs[i].size, true)];
            Inv(s.(hdr := hdr', node := Unlinked(s.node, s.l[k]), head := HeadWithout(s.node, s.head, s.l[k]),
                   bs := TakenWhole(s.bs, i), l := Without(s.l, k)))
    ensures Live(TakenWhole(s.bs, i)) == Live(s.bs) + {s.bs[i].(used := true)}
  {
    hide BlockTotal, Tiles, FreeAddrs, Live, Linked, Without, Unlinked, HeadWithout;
    var b := s.bs[i];
    var c := b.(used := true);
    Around(s.H, s.bs, s.start, s.end, i);
    One(s.H, b);
    One(s.H, c);
    TotalAtLeast(s.H, b.size);
    UnlinkLinks(s.node, s.head, s.l, k);
    LinkedDistinct(s.node, s.head, s.l);
    ElementsWithout(s.l, k);
    var hdr' := s.hdr[b.addr := Header(b.size, true)];
    Assemble(s, s.bs[..i], [b], [c], s.bs[i + 1..], b.addr, b.addr + BlockTotal(s.H, b.size),
             hdr', Unlinked(s.node, s.l[k]), HeadWithout(s.node, s.head, s.l[k]), Without(s.l, k));
  }

  lemma LinkedDistinct(node: map<nat, Node>, head: nat, l: seq<nat>)
    requires Linked(node, head, l)
    ensures Distinct(l)
  {
  }

  /** The blocks after the front of block i is taken for size bytes. */
  ghost function TakenFront(H: nat, bs: seq<Block>, i: nat, size: nat): seq<Block>
    requires i < |bs| && BlockTotal(H, size) + H <= BlockTotal(H, bs[i].size)
  {
    var total := BlockTotal(H, size);
    bs[..i] + [Block(bs[i].addr, size, true), Block(bs[i].addr + total, BlockTotal(H, bs[i].size) - total - H, false)] +
        bs[i + 1..]
  }

  lemma Aligned(H: nat, s: nat, t: nat)
    requires H % 16 == 0 && BlockTotal(H, t) + H <= BlockTotal(H, s)
    ensures BlockTotal(H, BlockTotal(H, s) - BlockTotal(H, t) - H) == BlockTotal(H, s) - BlockTotal(H, t)
  {
    hide BlockTotal;
    TotalAligned(H, s);
    TotalAligned(H, t);
    Differences(BlockTotal(H, s), BlockTotal(H, t));
    WholeBlock(H, BlockTotal(H, s) - BlockTotal(H, t));
  }

  lemma Differences(a: nat, b: nat)
    requires a % 16 == 0 && b % 16 == 0 && b <= a
    ensures (a - b) % 16 == 0
  {
  }

  lemma TotalAligned(H: nat, s: nat)
    requires H % 16 == 0
    ensures BlockTotal(H, s) % 16 == 0
  {
    AlignUpMeaning(s);
  }

  lemma TakeFront(s: Layout, i: nat, k: nat, size: nat)
    requires Inv(s) && i < |s.bs| && k < |s.l| && !s.bs[i].used && s.l[k] == s.bs[i].addr + s.H && s.l[k] in s.node
    requires s.H % 16 == 0 && size > 0 && BlockTotal(s.H, size) + s.H < BlockTotal(s.H, s.bs[i].size)
    ensures var total := BlockTotal(s.H, size);
            var tail := s.bs[i].addr + total;
            var rest := Header(BlockTotal(s.H, s.bs[i].size) - total - s.H, false);
            var hdr' := s.hdr[tail := rest][s.bs[i].addr := Header(size, true)];
            var head1 := HeadWithout(s.node, s.head, s.l[k]);
            Inv(s.(hdr := hdr', node := Pushed(Unlinked(s.node, s.l[k]), head1, tail + s.H), head := tail + s.H,
                   bs := TakenFront(s.H, s.bs, i, size), l := [tail + s.H] + Without(s.l, k)))
    ensures Live(TakenFront(s.H, s.bs, i, size)) == Live(s.bs) + {Block(s.bs[i].addr, size, true)}
  {
    hide BlockTotal, Tiles, FreeAddrs, Live, Linked, Without, Unlinked, HeadWithout, Pushed;
    var b := s.bs[i];
    var total := BlockTotal(s.H, size);
    var c := Block(b.addr, size, true);
    var rest := Block(b.addr + total, BlockTotal(s.H, b.size) - total - s.H, false);
    Around(s.H, s.bs, s.start, s.end, i);
    One(s.H, b);
    One(s.H, c);
    One(s.H, rest);
    Aligned(s.H, b.size, size);
    Two(s.H, c, rest);
    TotalAtLeast(s.H, size);
    UnlinkLinks(s.node, s.head, s.l, k);
    LinkedDistinct(s.node, s.head, s.l);
    ElementsWithout(s.l, k);
    NewAddress(s, i, rest.addr + s.H);
    var l1 := Without(s.l, k);
    WithoutElements(s.l, k);
    PushLinks(Unlinked(s.node, s.l[k]), HeadWithout(s.node, s.head, s.l[k]), l1, rest.addr + s.H);
    ElementsPush(l1, rest.addr + s.H);
    var hdr' := s.hdr[rest.addr := Header(rest.size, false)][b.addr := Header(size, true)];
    Assemble(s, s.bs[..i], [b], [c, rest], s.bs[i + 1..], b.addr, b.addr + BlockTotal(s.H, b.size),
             hdr', Pushed(Unlinked(s.node, s.l[k]), HeadWithout(s.node, s.head, s.l[k]), rest.addr + s.H),
             rest.addr + s.H, [rest.addr + s.H] + l1);
  }

  /** An address inside block i other than its payload is not in the list. */
  lemma NewAddress(s: Layout, i: nat, x: nat)
    requires Inv(s) && i < |s.bs|
    requires s.bs[i].addr + s.H < x < s.bs[i].addr + BlockTotal(s.H, s.bs[i].size)
    ensures x !in s.l
  {
    hide BlockTotal, Tiles, FreeAddrs, Headers, Linked;
    if x in s.l {
      assert x in FreeAddrs(s.H, s.bs);
      var j := FreeIndex(s.H, s.bs, x);
      if j < i {
        TilesInside(s.H, s.bs, s.start, s.end, j);
        TotalAtLeast(s.H, s.bs[j].size);
        TilesOrdered(s.H, s.bs, s.start, s.end, j, i);
      } else if i < j {
        TilesOrdered(s.H, s.bs, s.start, s.end, i, j);
      }
    }
  }

  // ---------- freeing ----------

  ghost function Released(bs: seq<Block>, i: nat): seq<Block>
    requires i < |bs|
  {
    bs[..i] + [bs[i].(used := false)] + bs[i + 1..]
  }

  lemma UsedNotListed(s: Layout, i: nat)
    requires Inv(s) && i < |s.bs| && s.bs[i].used
    ensures s.bs[i].addr + s.H !in s.l
  {
    hide BlockTotal, Tiles, FreeAddrs, Headers, Linked;
    if s.bs[i].addr + s.H in s.l {
      assert s.bs[i].addr + s.H in FreeAddrs(s.H, s.bs);
      var j := FreeIndex(s.H, s.bs, s.bs[i].addr + s.H);
      SameBlock(s.H, s.bs, s.start, s.end, i, j);
    }
  }

  lemma SameBlock(H: nat, bs: seq<Block>, start: nat, end: nat, i: nat, j: nat)
    requires Tiles(H, bs, start, end) && i < |bs| && j < |bs| && bs[i].addr == bs[j].addr
    ensures i == j
  {
    hide BlockTotal, Tiles;
    TilesInside(H, bs, start, end, i);
    TilesInside(H, bs, start, end, j);
    TotalAtLeast(H, bs[i].size);
    TotalAtLeast(H, bs[j].size);
    if i < j {
      TilesOrdered(H, bs, start, end, i, j);
    } else if j < i {
      TilesOrdered(H, bs, start, end, j, i);
    }
  }

  lemma Release(s: Layout, i: nat)
    requires Inv(s) && i < |s.bs| && s.bs[i].used && s.bs[i].addr + s.H != 0
    ensures var x := s.bs[i].addr + s.H;
            Inv(s.(hdr := s.hdr[s.bs[i].addr := Header(s.bs[i].size, false)], node := Pushed(s.node, s.head, x),
                   head := x, bs := Released(s.bs, i), l := [x] + s.l))
    ensures Live(Released(s.bs, i)) == Live(s.bs) - {s.bs[i]}
  {
    hide BlockTotal, Tiles, FreeAddrs, Linked, Pushed, Live;
    var b := s.bs[i];
    var c := b.(used := false);
    var x := b.addr + s.H;
    Around(s.H, s.bs, s.start, s.end, i);
    One(s.H, b);
    One(s.H, c);
    TotalAtLeast(s.H, b.size);
    UsedNotListed(s, i);
    PushLinks(s.node, s.head, s.l, x);
    ElementsPush(s.l, x);
    Assemble(s, s.bs[..i], [b], [c], s.bs[i + 1..], b.addr, b.addr + BlockTotal(s.H, b.size),
             s.hdr[b.addr := Header(b.size, false)], Pushed(s.node, s.head, x), x, [x] + s.l);
    OnlyOnce(s.H, s.bs, s.start, s.end, i);
  }

  /** A block occurs once among the blocks. */
  lemma OnlyOnce(H: nat, bs: seq<Block>, start: nat, end: nat, i: nat)
    requires Tiles(H, bs, start, end) && i < |bs|
    ensures bs[i] !in Live(bs[..i]) && bs[i] !in Live(bs[i + 1..])
  {
    hide BlockTotal, Tiles;
    if bs[i] in bs[..i] {
      var j :| 0 <= j < i && bs[..i][j] == bs[i];
      SameBlock(H, bs, start, end, i, j);
    }
    if bs[i] in bs[i + 1..] {
      var j :| 0 <= j < |bs| - i - 1 && bs[i + 1..][j] == bs[i];
      SameBlock(H, bs, start, end, i, i + 1 + j);
    }
  }

  // ---------- joining ----------

  /** The blocks after free blocks i and i + 1 become one. */
  ghost function Joined(H: nat, bs: seq<Block>, i: nat): seq<Block>
    requires i + 1 < |bs| && BlockTotal(H, bs[i].size) + BlockTotal(H, bs[i + 1].size) >= H
  {
    bs[..i] + [Block(bs[i].addr, BlockTotal(H, bs[i].size) + BlockTotal(H, bs[i + 1].size) - H, false)] + bs[i + 2..]
  }

  lemma Join(s: Layout, i: nat,
             node': map<nat, Node>, head': nat, l': seq<nat>)
    requires Inv(s) && i + 1 < |s.bs| && !s.bs[i].used && !s.bs[i + 1].used && s.H % 16 == 0
    requires Linked(node', head', l') && Elements(l') == Elements(s.l) - {s.bs[i + 1].addr + s.H}
    ensures BlockTotal(s.H, s.bs[i].size) + BlockTotal(s.H, s.bs[i + 1].size) >= s.H
    ensures var hdr' := s.hdr[s.bs[i].addr :=
                              Header(BlockTotal(s.H, s.bs[i].size) + BlockTotal(s.H, s.bs[i + 1].size) - s.H, false)];
            Inv(s.(hdr := hdr', node := node', head := head', bs := Joined(s.H, s.bs, i), l := l'))
    ensures Live(Joined(s.H, s.bs, i)) == Live(s.bs)
  {
    hide BlockTotal, Tiles, FreeAddrs, Linked, Live;
    var b, c := s.bs[i], s.bs[i + 1];
    AroundTwo(s.H, s.bs, s.start, s.end, i);
    TotalAtLeast(s.H, b.size);
    TotalAtLeast(s.H, c.size);
    var whole := BlockTotal(s.H, b.size) + BlockTotal(s.H, c.size);
    TotalAligned(s.H, b.size);
    TotalAligned(s.H, c.size);
    WholeBlock(s.H, whole);
    var d := Block(b.addr, whole - s.H, false);
    One(s.H, b);
    One(s.H, c);
    One(s.H, d);
    Two(s.H, b, c);
    FreeMember(s.H, s.bs, i);
    assert Elements(l') == Elements(s.l) - FreeAddrs(s.H, [b, c]) + FreeAddrs(s.H, [d]);
    Assemble(s, s.bs[..i], [b, c], [d], s.bs[i + 2..], b.addr, b.addr + whole,
             s.hdr[b.addr := Header(whole - s.H, false)], node', head', l');
  }

  // ---------- neighbours ----------

  /** The blocks after kfree of block i: released, joined with a free next block, then with a
      free previous one. */
  ghost function Freed(H: nat, bs: seq<Block>, i: nat): seq<Block>
    requires i < |bs|
  {
    var r := Released(bs, i);
    var s := if i + 1 < |bs| && !bs[i + 1].used then Joined(H, r, i) else r;
    if i > 0 && !bs[i - 1].used then Joined(H, s, i - 1) else s
  }

  /** Where the freed block ends up. */
  ghost function Place(bs: seq<Block>, i: nat): nat
    requires i < |bs|
  {
    if i > 0 && !bs[i - 1].used then i - 1 else i
  }

  ghost predicate IsFree(bs: seq<Block>, i: int) { 0 <= i < |bs| && !bs[i].used }

  /** The freed block has a free neighbour exactly where the block beyond a joined one was free:
      joining stops after one block on each side. */
  lemma FreedNeighbours(H: nat, bs: seq<Block>, i: nat)
    requires i < |bs|
    ensures var f := Freed(H, bs, i);
            var j := Place(bs, i);
            j < |f| && !f[j].used &&
            (IsFree(f, j + 1) <==> IsFree(bs, i + 1) && IsFree(bs, i + 2)) &&
            (IsFree(f, j - 1) <==> IsFree(bs, i - 1) && IsFree(bs, i - 2))
  {
    hide Freed;
    var f := Freed(H, bs, i);
    var j := Place(bs, i);
    FreedLength(H, bs, i);
    FreedUsed(H, bs, i, j);
    if j + 1 < |f| {
      FreedUsed(H, bs, i, j + 1);
    }
    if j > 0 {
      FreedUsed(H, bs, i, j - 1);
    }
  }

  lemma FreedLength(H: nat, bs: seq<Block>, i: nat)
    requires i < |bs|
    ensures |Freed(H, bs, i)| == |bs| - (if IsFree(bs, i + 1) then 1 else 0) - (if IsFree(bs, i - 1) then 1 else 0)
  {
    hide BlockTotal;
  }

  /** No two neighbouring blocks are both free. */
  ghost predicate NoFreePair(bs: seq<Block>) {
    forall i :: 0 <= i < |bs| - 1 ==> bs[i].used || bs[i + 1].used
  }

  /** A heap without a free pair has none after kfree, so the freed block stands alone. */
  lemma FreedKeepsNoPair(H: nat, bs: seq<Block>, i: nat)
    requires i < |bs| && NoFreePair(bs)
    ensures NoFreePair(Freed(H, bs, i))
  {
    hide Freed;
    var f := Freed(H, bs, i);
    FreedLength(H, bs, i);
    forall k | 0 <= k < |f| - 1 ensures f[k].used || f[k + 1].used {
      FreedUsed(H, bs, i, k);
      FreedUsed(H, bs, i, k + 1);
    }
  }

  lemma ReleasedAt(bs: seq<Block>, i: nat, k: nat)
    requires i < |bs| && k < |bs|
    ensures |Released(bs, i)| == |bs| && Released(bs, i)[k].used == (k != i && bs[k].used)
  {
  }

  lemma JoinedAt(H: nat, bs: seq<Block>, i: nat, k: nat)
    requires i + 1 < |bs| && k < |bs| - 1
    ensures |Joined(H, bs, i)| == |bs| - 1
    ensures Joined(H, bs, i)[k].used == if k < i then bs[k].used else if k == i then false else bs[k + 1].used
  {
    hide BlockTotal;
  }

  /** Which block of the old heap a block of the new one is. */
  lemma FreedUsed(H: nat, bs: seq<Block>, i: nat, k: nat)
    requires i < |bs| && k < |Freed(H, bs, i)|
    ensures var j := Place(bs, i);
            var gone := if IsFree(bs, i + 1) then 1 else 0;
            Freed(H, bs, i)[k].used == if k < j then bs[k].used else if k == j then false
                else k + i - j + gone < |bs| && bs[k + i - j + gone].used
  {
    hide BlockTotal, Released, Joined;
    var r := Released(bs, i);
    ReleasedAt(bs, i, i);
    var after := i + 1 < |bs| && !bs[i + 1].used;
    var s := if after then Joined(H, r, i) else r;
    var m := if i > 0 && !bs[i - 1].used && k >= i then k + 1 else k;
    if after {
      JoinedAt(H, r, i, 0);
    }
    if i > 0 && !bs[i - 1].used {
      JoinedAt(H, s, i - 1, 0);
      JoinedAt(H, s, i - 1, k);
    }
    if after {
      JoinedAt(H, r, i, m);
    }
    ReleasedAt(bs, i, if after && m > i then m + 1 else m);
  }

  /** Growth appends a free block, and makes a free pair exactly where the last block was free. */
  lemma GrowthPairs(bs: seq<Block>, b: Block)
    requires bs != [] && !b.used
    ensures NoFreePair(bs + [b]) <==> NoFreePair(bs) && bs[|bs| - 1].used
  {
    var c := bs + [b];
    assert forall i :: 0 <= i < |bs| ==> c[i] == bs[i];
    if NoFreePair(c) {
      var n := |bs| - 1;
      assert c[n] == bs[n] && c[n + 1] == b;
      forall i | 0 <= i < |bs| - 1 ensures bs[i].used || bs[i + 1].used {
        assert c[i].used || c[i + 1].used;
      }
    }
  }

  // ---------- free pairs under allocation and growth ----------

  /** The blocks after block i has been allotted to a request: split where the rest can hold a
      block of its own. */
  ghost function Allotted(H: nat, bs: seq<Block>, i: nat, size: nat): seq<Block>
    requires i < |bs|
  {
    if BlockTotal(H, bs[i].size) - BlockTotal(H, size) >= BlockTotal(H, 0) + MIN_BLOCK then TakenFront(H, bs, i, size)
        else TakenWhole(bs, i)
  }

  /** The block is split exactly when its rest holds a header and 32 bytes more. */
  lemma SplitsWhen(H: nat, bs: seq<Block>, i: nat, size: nat)
    requires i < |bs|
    ensures |Allotted(H, bs, i, size)| == |bs| + 1 <==> BlockTotal(H, bs[i].size) >= BlockTotal(H, size) + H + 32
    ensures |Allotted(H, bs, i, size)| == |bs| <==> BlockTotal(H, bs[i].size) < BlockTotal(H, size) + H + 32
  {
    hide AlignUp;
    assert AlignUp(0) == 0 by {
      NothingToAlign();
    }
  }

  lemma NothingToAlign()
    ensures AlignUp(0) == 0
  {
  }

  /** No free block has so many bytes in all. */
  ghost predicate NoneFits(H: nat, bs: seq<Block>, total: nat) {
    forall i :: 0 <= i < |bs| && !bs[i].used ==> BlockTotal(H, bs[i].size) < total
  }

  lemma FoundFits(H: nat, bs: seq<Block>, i: nat, total: nat)
    requires i < |bs| && !bs[i].used && BlockTotal(H, bs[i].size) >= total
    ensures !NoneFits(H, bs, total)
  {
    hide BlockTotal;
  }

  /** Allotting a free block makes no free pair where there was none. */
  lemma AllottedKeepsNoPair(H: nat, bs: seq<Block>, i: nat, size: nat)
    requires i < |bs| && !bs[i].used && NoFreePair(bs)
    ensures NoFreePair(Allotted(H, bs, i, size))
  {
    hide BlockTotal;
    var f := Allotted(H, bs, i, size);
    forall k | 0 <= k < |f| - 1 ensures f[k].used || f[k + 1].used {
      if |f| == |bs| {
        AllottedAt(H, bs, i, size, k);
        AllottedAt(H, bs, i, size, k + 1);
        assert bs[k].used || bs[k + 1].used;
      } else {
        AllottedAt(H, bs, i, size, k);
        AllottedAt(H, bs, i, size, k + 1);
        if k < i {
          assert bs[k].used || bs[k + 1].used;
        } else if k > i {
          assert bs[k - 1].used || bs[k].used;
        }
      }
    }
  }

  /** Which blocks are in use after an allotment. */
  lemma AllottedAt(H: nat, bs: seq<Block>, i: nat, size: nat, k: nat)
    requires i < |bs| && k < |Allotted(H, bs, i, size)|
    ensures var f := Allotted(H, bs, i, size);
            (|f| == |bs| || |f| == |bs| + 1) &&
            f[k].used == if k < i then bs[k].used else if k == i then true else if |f| == |bs| then bs[k].used
            else k > i + 1 && bs[k - 1].used
  {
    hide BlockTotal;
  }

  /** Allotting the last block clears a free pair that it formed. */
  lemma LastAllotted(H: nat, bs: seq<Block>, i: nat, size: nat)
    requires i + 1 == |bs| && NoFreePair(bs[..i])
    ensures NoFreePair(Allotted(H, bs, i, size))
  {
    hide BlockTotal;
    var f := Allotted(H, bs, i, size);
    forall k | 0 <= k < |f| - 1 ensures f[k].used || f[k + 1].used {
      AllottedAt(H, bs, i, size, k);
      AllottedAt(H, bs, i, size, k + 1);
      if k + 1 < i {
        assert bs[..i][k].used || bs[..i][k + 1].used;
      }
    }
  }

  /** Block j is free and neither neighbour is. */
  ghost predicate Alone(bs: seq<Block>, j: nat) { IsFree(bs, j) && !IsFree(bs, j - 1) && !IsFree(bs, j + 1) }

  /** In a heap without a free pair, a freed block stands alone. */
  lemma FreedAlone(H: nat, bs: seq<Block>, i: nat)
    requires i < |bs| && NoFreePair(bs)
    ensures Alone(Freed(H, bs, i), Place(bs, i))
  {
    hide BlockTotal, Freed, Place;
    FreedNeighbours(H, bs, i);
  }
}
