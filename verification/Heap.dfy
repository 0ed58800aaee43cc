/** The kernel heap: first-fit allocation from a doubly linked free list, splitting, growth by
    whole pages, and freeing with coalescing on both sides. */
module Heap {
  import opened Units
  import opened FreeList
  import opened HeapBlocks
  import opened HeapSteps
  import opened HeapSpec

  class KernelHeap {
    const H: nat
    const base: nat
    var end: nat
    var head: nat
    var hdr: map<nat, Header>
    var node: map<nat, Node>
    /** The pages that the frame allocator and the mapper can still supply. */
    var supply: nat
    /** The blocks in address order and the free list in list order. */
    ghost var bs: seq<Block>
    ghost var l: seq<nat>

    /** The heap as one value. */
    ghost function State(): Layout
      reads this
    {
      Layout(H, base, end, hdr, node, head, bs, l)
    }

    ghost function View(): Picture
      reads this
    {
      Picture(bs, end, supply)
    }

    ghost predicate Valid()
      reads this
    {
      && GoodHeader(H) && base > 0 && base % 16 == 0 && base <= end
      && Inv(State())
    }

    /** init, with the pages that could be mapped. */
    constructor (H: nat, base: nat, pages: nat, supply: nat)
      requires GoodHeader(H) && base > 0 && base % 16 == 0 && pages > 0
      ensures Valid() && this.H == H && this.base == base && end == base + pages * PAGE_SIZE
      ensures Live(bs) == {} && bs == [Block(base, pages * PAGE_SIZE - H, false)] && this.supply == supply
    {
      var total := pages * PAGE_SIZE;
      var payload := total - H;
      this.H := H;
      this.base := base;
      this.end := base + total;
      this.supply := supply;
      this.hdr := map[base := Header(payload, false)];
      this.node := Pushed(map[], 0, base + H);
      this.head := base + H;
      this.bs := [Block(base, payload, false)];
      this.l := [base + H];
      new;
      FirstBlock(H, base, total);
    }

    // ---------- the free list ----------

    /** free_list_insert */
    method FreeListInsert(x: nat)
      requires Linked(node, head, l) && x != 0 && x !in l
      modifies this`node, this`head, this`l
      ensures node == Pushed(old(node), old(head), x) && head == x && l == [x] + old(l)
      ensures Linked(node, head, l)
    {
      PushLinks(node, head, l, x);
      HeadListed(node, head, l);
      ghost var node0 := node;
      node := node[x := Node(head, 0)];
      if head != 0 {
        node := node[head := node[head].(prev := x)];
      }
      head := x;
      l := [x] + l;
    }

    /** free_list_remove, of the entry at position k. */
    method FreeListRemove(x: nat, ghost k: nat)
      requires Linked(node, head, l) && k < |l| && l[k] == x
      modifies this`node, this`head, this`l
      ensures x in old(node) && node == Unlinked(old(node), x) && head == HeadWithout(old(node), old(head), x) &&
              l == Without(old(l), k)
      ensures Linked(node, head, l)
    {
      hide Linked;
      UnlinkLinks(node, head, l, k);
      NodeAt(node, head, l, k);
      AtIs(node, head, l, k, k - 1);
      AtIs(node, head, l, k, k + 1);
      var n := node[x];
      if n.prev != 0 {
        node := node[n.prev := node[n.prev].(next := n.next)];
      } else {
        head := n.next;
      }
      if n.next != 0 {
        node := node[n.next := node[n.next].(prev := n.prev)];
      }
      l := Without(l, k);
    }

    // ---------- growth ----------

    /** grow_heap: the pages asked for, at least a quarter of the heap and at least four, as far
        as the limit and the supply allow. */
    method Grow(minPages: nat) returns (ok: bool)
      requires Valid()
      modifies this
      ensures Valid() && Live(bs) == Live(old(bs))
      ensures var n := Grant(old(supply), old(end) - base, minPages);
              && (ok <==> n > 0) && View() == Grew(H, old(View()), n)
              && l == if ok then [old(end) + H] + old(l) else old(l)
      ensures var n := old(supply) - supply;
              && end == old(end) + 4096 * n && (ok ==> end - base <= 256 * 1024 * 1024)
              && (n <= minPages || n <= (old(end) - base) / 16384 || n <= 4)
              && ((n >= minPages && n >= (old(end) - base) / 16384 && n >= 4) || supply == 0 ||
                  end - base + 4096 > 256 * 1024 * 1024)
    {
      hide Inv, BlockTotal, Live, Linked, Wanted;
      GrantMeaning(supply, end - base, minPages);
      var pages := Wanted(end - base, minPages);
      if pages == 0 {
        return false;
      }
      var granted := if pages <= supply then pages else supply;
      if granted == 0 {
        return false;
      }
      supply := supply - granted;
      var newEnd := end + granted * PAGE_SIZE;
      var payload := newEnd - end - H;
      // both tests that guard the new block hold for such a header
      assert AlignUp(0) + H <= newEnd - end && payload >= MIN_BLOCK;
      GrowthKeeps(State(), granted);
      hdr := hdr[end := Header(payload, false)];
      FreeListInsert(end + H);
      bs := bs + [Block(end, payload, false)];
      end := newEnd;
      return true;
    }

    // ---------- allocation ----------

    /** The first-fit search: the first entry of the list whose block is large enough, or null. */
    method FirstFit(total: nat) returns (x: nat, ghost k: nat)
      requires Valid()
      ensures x == 0 ==> NoneFits(H, bs, total)
      ensures x != 0 ==> FirstFitting(x, k, total)
    {
      hide BlockTotal, Headers, FreeAddrs, Tiles, Linked, NoneFits;
      x := head;
      k := 0;
      HeadIs(node, head, l);
      while x != 0
        invariant 0 <= k <= |l| && x == At(l, k)
        invariant forall j :: 0 <= j < k ==> Capacity(l[j]) < total
        decreases |l| - k
      {
        NodeAt(node, head, l, k);
        ghost var i := ListedBlock(State(), k);
        var h := x - H;
        if BlockTotal(H, hdr[h].size) >= total {
          return;
        }
        x := node[x].next;
        k := k + 1;
      }
      AllSeen(node, head, l, k);
      AllTooSmall(total);
    }

    /** When every entry of the list is too small, every free block is. */
    lemma AllTooSmall(total: nat)
      requires Valid() && forall j :: 0 <= j < |l| ==> Capacity(l[j]) < total
      ensures NoneFits(H, bs, total)
    {
      hide Inv, BlockTotal, Valid, Capacity;
      forall i | 0 <= i < |bs| && !bs[i].used ensures BlockTotal(H, bs[i].size) < total {
        var k := ListedCapacity(i);
        assert Capacity(l[k]) < total;
      }
    }

    /** A free block stands in the list, with its own size. */
    lemma ListedCapacity(i: nat) returns (k: nat)
      requires Valid() && i < |bs| && !bs[i].used
      ensures k < |l| && Capacity(l[k]) == BlockTotal(H, bs[i].size)
    {
      hide Inv, BlockTotal;
      k := FreePosition(State(), i);
      BlockInMemory(State(), i);
    }

    /** The whole size of the block whose payload is at x. */
    ghost function Capacity(x: nat): nat
      reads this
    {
      if x >= H && x - H in hdr then BlockTotal(H, hdr[x - H].size) else 0
    }

    /** Entry k of the list is at x and is the first that is large enough. */
    ghost predicate FirstFitting(x: nat, k: nat, total: nat)
      reads this
    {
      k < |l| && l[k] == x && Capacity(x) >= total && forall j :: 0 <= j < k ==> Capacity(l[j]) < total
    }

    /** kmalloc */
    method Kmalloc(size: nat) returns (p: nat)
      requires Valid()
      modifies this
      ensures Valid() && end >= old(end) && Allocates(H, base, old(View()), size, p, View())
      // null exactly for no bytes, or when no block is large enough and growth gives too little
      ensures p == 0 <==>
              size == 0 ||
              (NoneFits(H, old(bs), BlockTotal(H, size)) && Granted(H, base, old(View()), size) < Needed(H, size))
      ensures size > 0 && NoneFits(H, old(bs), BlockTotal(H, size)) ==>
                var n := ((size + 15) / 16 * 16 + H + 4095) / 4096;
                p == 0 <==> old(supply) < n || old(end) - base + 4096 * n > 256 * 1024 * 1024
      // what is live
      ensures p % 16 == 0
      ensures p == 0 ==> Live(bs) == Live(old(bs))
      ensures p != 0 ==> exists b :: b !in Live(old(bs)) && Live(bs) == Live(old(bs)) + {b} && Fits(H, b, p, size)
      // the block is the first of the list that is large enough, if there is one
      ensures p != 0 && end == old(end) ==> exists k :: old(FirstFitting(p, k, BlockTotal(H, size)))
      // free neighbours
      ensures NoFreePair(old(bs)) ==>
                (!NoFreePair(bs) <==> GrowsInVain(H, base, old(View()), size) && IsFree(old(bs), |old(bs)| - 1))
      decreases supply
    {
      hide Inv, BlockTotal, Live, Fits, NoneFits, NoFreePair, Allocates, Grant, Grew, PagesFor, Capacity;
      if size == 0 {
        NothingAllocated(H, base, View());
        return 0;
      }
      var total := BlockTotal(H, size);
      ghost var k;
      p, k := FirstFit(total);
      if p != 0 {
        ghost var i := Allot(p, k, size);
        FoundFits(H, old(bs), i, total);
        HandedOut(H, base, old(View()), i, size, p, bs);
      } else {
        ghost var t := View();
        var ok := Grow(PagesFor(total));
        if ok {
          p := Kmalloc(size);
          Retried(H, base, t, size, p, View());
        } else {
          NotGrown(H, base, t, size);
        }
        NullExactly(H, base, t, size, p, View());
        NeededMeaning(H, size);
        GrantEnough(t.supply, t.end - base, Needed(H, size));
      }
      if NoFreePair(old(bs)) {
        PairsExactly(H, base, old(View()), size, p, View());
      }
    }

    /** A free block that is large enough taken out of the list, its tail split off if it can
        hold a block of its own. */
    method Allot(p: nat, ghost k: nat, size: nat) returns (ghost i: nat)
      requires Valid() && size > 0 && FirstFitting(p, k, BlockTotal(H, size))
      modifies this`node, this`head, this`l, this`hdr, this`bs
      ensures Valid()
      ensures p % 16 == 0 && p != 0 && HandsOut(H, old(bs), i, size, p, bs)
      ensures exists b :: b !in Live(old(bs)) && Live(bs) == Live(old(bs)) + {b} && Fits(H, b, p, size)
    {
      hide Inv, BlockTotal, Live, Fits, TakenWhole, TakenFront, Linked, Unlinked, Pushed, HeadWithout, Without;
      i := ListedBlock(State(), k);
      ghost var b := bs[i];
      InvLinked(State(), k);
      BlockAligned(State(), i);
      var h := p - H;
      var total := BlockTotal(H, size);
      var blkTotal := BlockTotal(H, hdr[h].size);
      var remaining := blkTotal - total;
      if remaining >= BlockTotal(H, 0) + MIN_BLOCK {
        SplitRoom(H, size, b.size);
        TakeFront(State(), i, k, size);
        NewBlock(State(), i, Block(b.addr, size, true), size);
        var x := h + total + H;
        FreshTail(State(), i, k, x);
        FreeListRemove(p, k);
        hdr := hdr[h + total := Header(remaining - H, false)][h := Header(size, false)];
        FreeListInsert(x);
        hdr := hdr[h := hdr[h].(used := true)];
        bs := TakenFront(H, bs, i, size);
        FittingFront(H, b, size);
        assert hdr == old(hdr)[h + total := Header(remaining - H, false)][h := Header(size, true)];
      } else {
        TakeWhole(State(), i, k);
        NewBlock(State(), i, b.(used := true), size);
        FreeListRemove(p, k);
        hdr := hdr[h := hdr[h].(used := true)];
        bs := TakenWhole(bs, i);
        FittingWhole(H, b, size);
      }
    }

    // ---------- freeing ----------

    /** kfree of a null pointer, of a block already free, or of a block in use (number i). */
    method Kfree(ptr: nat, ghost i: nat)
      requires Valid()
      requires ptr != 0 ==> ptr >= H && ptr - H in hdr
      requires ptr != 0 && hdr[ptr - H].used ==> i < |bs| && bs[i].addr + H == ptr
      modifies this`node, this`head, this`l, this`hdr, this`bs
      ensures Valid()
      ensures ptr == 0 || !old(hdr)[ptr - H].used ==> bs == old(bs) && l == old(l)
      ensures ptr != 0 && old(hdr)[ptr - H].used ==>
              bs == Freed(H, old(bs), i) && Live(bs) == Live(old(bs)) - {old(bs)[i]}
    {
      hide Inv, BlockTotal, Live, Linked, Pushed, Unlinked, Released, Joined;
      if ptr == 0 {
        return;
      }
      var h := ptr - H;
      if !hdr[h].used {
        return;
      }
      ghost var b := bs[i];
      BlockInMemory(State(), i);
      if h < base || h >= end {
        return;
      }
      Release(State(), i);
      UsedNotListed(State(), i);
      hdr := hdr[h := hdr[h].(used := false)];
      FreeListInsert(ptr);
      bs := Released(bs, i);
      ReleasedIs(old(bs), i);
      CoalesceNext(h, i);
      JoinedIs(H, Released(old(bs), i), i);
      CoalescePrevious(h, i);
    }

    /** The first half of the coalescing: a free block behind block i joins it. */
    method CoalesceNext(h: nat, ghost i: nat)
      requires Valid() && i < |bs| && bs[i].addr == h && !bs[i].used
      modifies this`node, this`head, this`l, this`hdr, this`bs
      ensures Valid() && Live(bs) == Live(old(bs))
      ensures bs == if IsFree(old(bs), i + 1) then Joined(H, old(bs), i) else old(bs)
    {
      hide Inv, BlockTotal, Live, Linked, Unlinked, HeadWithout, Without, Joined, Distinct;
      BlockInMemory(State(), i);
      NextBlock(State(), i);
      var next := h + BlockTotal(H, hdr[h].size);
      if next < end && !hdr[next].used {
        ghost var k := FreePosition(State(), i + 1);
        InvLinked(State(), k);
        UnlinkLinks(node, head, l, k);
        LinkedDistinct(node, head, l);
        ElementsWithout(l, k);
        Join(State(), i, Unlinked(node, l[k]), HeadWithout(node, head, l[k]), Without(l, k));
        FreeListRemove(next + H, k);
        var curTotal := BlockTotal(H, hdr[h].size);
        var nextTotal := BlockTotal(H, hdr[next].size);
        var combined := curTotal + nextTotal;
        hdr := hdr[h := hdr[h].(size := combined - H)];
        bs := Joined(H, bs, i);
      }
    }

    /** The scan of the list for a free block that ends where block i starts; 0 if there is none. */
    method FindPrevious(h: nat, ghost i: nat) returns (prev: nat)
      requires Valid() && i < |bs| && bs[i].addr == h
      ensures prev != 0 <==> IsFree(bs, i - 1)
      ensures prev != 0 ==> i > 0 && prev == bs[i - 1].addr
    {
      hide Inv, BlockTotal, Linked;
      prev := 0;
      var n := head;
      ghost var k := 0;
      InvHead(State());
      while n != 0
        invariant 0 <= k <= |l| && n == At(l, k)
        invariant i > 0 ==> forall j :: 0 <= j < k ==> l[j] != bs[i - 1].addr + H
        decreases |l| - k
      {
        InvNode(State(), k);
        ghost var j := ListedBlock(State(), k);
        BlockInMemory(State(), j);
        PreviousIs(State(), i, j);
        var hh := n - H;
        if hh + BlockTotal(H, hdr[hh].size) == h && !hdr[hh].used && hh != h {
          prev := hh;
          return;
        }
        n := node[n].next;
        k := k + 1;
      }
      InvAllSeen(State(), k);
      if IsFree(bs, i - 1) {
        ghost var q := FreePosition(State(), i - 1);
      }
    }

    /** The second half: block i joins a free block in front of it. */
    method CoalescePrevious(h: nat, ghost i: nat)
      requires Valid() && i < |bs| && bs[i].addr == h && !bs[i].used
      modifies this`node, this`head, this`l, this`hdr, this`bs
      ensures Valid() && Live(bs) == Live(old(bs))
      ensures bs == if IsFree(old(bs), i - 1) then Joined(H, old(bs), i - 1) else old(bs)
    {
      hide Inv, BlockTotal, Live, Linked, Unlinked, HeadWithout, Without, Joined, Distinct, Pushed;
      var prev := FindPrevious(h, i);
      if prev != 0 {
        BlockInMemory(State(), i);
        BlockInMemory(State(), i - 1);
        ghost var k := FreePosition(State(), i);
        ghost var q := FreePosition(State(), i - 1);
        InvLinked(State(), k);
        Different(State(), i);
        LinkedDistinct(node, head, l);
        MoveToFront(l, k, q);
        FreeListRemove(h + H, k);
        FreeListRemove(prev + H, if q < k then q else q - 1);
        var prevTotal := BlockTotal(H, hdr[prev].size);
        var curTotal := BlockTotal(H, hdr[h].size);
        FreeListInsert(prev + H);
        Join(old(State()), i - 1, node, head, l);
        hdr := hdr[prev := hdr[prev].(size := prevTotal + curTotal - H)];
        bs := Joined(H, bs, i - 1);
      }
    }
  }

  /** Block b is in use, its payload is at p and it has room for size bytes. */
  ghost predicate Fits(H: nat, b: Block, p: nat, size: nat) {
    b.used && p == b.addr + H && AlignUp(size) + H <= BlockTotal(H, b.size)
  }

  lemma FittingFront(H: nat, b: Block, size: nat)
    ensures Fits(H, Block(b.addr, size, true), b.addr + H, size)
  {
  }

  lemma FittingWhole(H: nat, b: Block, size: nat)
    requires BlockTotal(H, size) <= BlockTotal(H, b.size)
    ensures Fits(H, b.(used := true), b.addr + H, size)
  {
  }

  /** An entry of the list is the payload of a free block whose header is in memory. */
  lemma ListedBlock(s: Layout, k: nat) returns (i: nat)
    requires Inv(s) && k < |s.l|
    ensures i < |s.bs| && !s.bs[i].used && s.l[k] == s.bs[i].addr + s.H
    ensures s.bs[i].addr in s.hdr && s.hdr[s.bs[i].addr] == Header(s.bs[i].size, false)
  {
    hide Tiles, FreeAddrs, Linked;
    assert s.l[k] in Elements(s.l);
    i := FreeIndex(s.H, s.bs, s.l[k]);
  }

  lemma InvLinked(s: Layout, k: nat)
    requires Inv(s) && k < |s.l|
    ensures Linked(s.node, s.head, s.l) && s.l[k] in s.node && s.l[k] != 0
  {
    hide Tiles, FreeAddrs, Headers;
  }

  lemma BlockAligned(s: Layout, i: nat)
    requires Inv(s) && i < |s.bs| && GoodHeader(s.H) && s.start % 16 == 0
    ensures (s.bs[i].addr + s.H) % 16 == 0
  {
    hide Tiles, FreeAddrs, Headers, Linked;
    TilesAligned(s.H, s.bs, s.start, s.end, i);
  }

  /** A block's header is in memory and its address is inside the heap. */
  lemma BlockInMemory(s: Layout, i: nat)
    requires Inv(s) && i < |s.bs|
    ensures s.bs[i].addr in s.hdr && s.hdr[s.bs[i].addr] == Header(s.bs[i].size, s.bs[i].used)
    ensures s.start <= s.bs[i].addr < s.end && s.bs[i].size > 0 && Linked(s.node, s.head, s.l)
  {
    hide Tiles, FreeAddrs, Linked, BlockTotal;
    TilesInside(s.H, s.bs, s.start, s.end, i);
    TotalAtLeast(s.H, s.bs[i].size);
  }

  /** Behind a block comes the next one, or the end of the heap. */
  lemma NextBlock(s: Layout, i: nat)
    requires Inv(s) && i < |s.bs|
    ensures var next := s.bs[i].addr + BlockTotal(s.H, s.bs[i].size);
            (next < s.end <==> i + 1 < |s.bs|) &&
            (i + 1 < |s.bs| ==>
               s.bs[i + 1].addr == next && next in s.hdr &&
               s.hdr[next] == Header(s.bs[i + 1].size, s.bs[i + 1].used))
  {
    hide FreeAddrs, Linked, BlockTotal;
    Around(s.H, s.bs, s.start, s.end, i);
    if i + 1 < |s.bs| {
      AroundTwo(s.H, s.bs, s.start, s.end, i);
      TilesInside(s.H, s.bs, s.start, s.end, i + 1);
      TotalAtLeast(s.H, s.bs[i + 1].size);
    }
  }

  /** A free block is in the list. */
  lemma FreePosition(s: Layout, i: nat) returns (k: nat)
    requires Inv(s) && i < |s.bs| && !s.bs[i].used
    ensures k < |s.l| && s.l[k] == s.bs[i].addr + s.H
  {
    hide Tiles, FreeAddrs, Linked, Headers;
    FreeMember(s.H, s.bs, i);
    assert s.bs[i].addr + s.H in Elements(s.l);
    k :| 0 <= k < |s.l| && s.l[k] == s.bs[i].addr + s.H;
  }

  lemma InvHead(s: Layout)
    requires Inv(s)
    ensures s.head == At(s.l, 0)
  {
    hide Tiles, FreeAddrs, Headers;
  }

  lemma InvNode(s: Layout, k: nat)
    requires Inv(s) && k < |s.l|
    ensures s.l[k] in s.node && s.node[s.l[k]].next == At(s.l, k + 1)
  {
    hide Tiles, FreeAddrs, Headers;
  }

  lemma InvAllSeen(s: Layout, k: nat)
    requires Inv(s) && k <= |s.l| && At(s.l, k) == 0
    ensures k == |s.l|
  {
    hide Tiles, FreeAddrs, Headers;
    AllSeen(s.node, s.head, s.l, k);
  }

  /** Block j ends where block i starts exactly when it is the one before. */
  lemma PreviousIs(s: Layout, i: nat, j: nat)
    requires Inv(s) && i < |s.bs| && j < |s.bs|
    ensures s.bs[j].addr + BlockTotal(s.H, s.bs[j].size) == s.bs[i].addr <==> j + 1 == i
    ensures s.bs[j].addr == s.bs[i].addr <==> i == j
    ensures i > 0 && s.bs[j].addr == s.bs[i - 1].addr ==> j == i - 1
  {
    hide Tiles, FreeAddrs, Headers, Linked, BlockTotal;
    TilesInside(s.H, s.bs, s.start, s.end, j);
    TilesInside(s.H, s.bs, s.start, s.end, i);
    TotalAtLeast(s.H, s.bs[j].size);
    TotalAtLeast(s.H, s.bs[i].size);
    NextBlock(s, j);
    if j + 1 < i {
      TilesOrdered(s.H, s.bs, s.start, s.end, j + 1, i);
      TilesInside(s.H, s.bs, s.start, s.end, j + 1);
      TotalAtLeast(s.H, s.bs[j + 1].size);
    } else if i < j {
      TilesOrdered(s.H, s.bs, s.start, s.end, i, j);
    }
    if i > 0 && s.bs[j].addr == s.bs[i - 1].addr {
      SameBlock(s.H, s.bs, s.start, s.end, i - 1, j);
    }
  }

  lemma Different(s: Layout, i: nat)
    requires Inv(s) && 0 < i < |s.bs|
    ensures s.bs[i].addr != s.bs[i - 1].addr
  {
    hide Inv, BlockTotal;
    PreviousIs(s, i, i - 1);
  }

  /** Taking entries k and q out of a list and putting q in front. */
  lemma MoveToFront(l: seq<nat>, k: nat, q: nat)
    requires k < |l| && q < |l| && l[k] != l[q] && Distinct(l)
    ensures var q' := if q < k then q else q - 1;
            var l1 := Without(l, k);
            k != q && q' < |l1| && l1[q'] == l[q] && l[q] !in Without(l1, q') &&
            Elements([l[q]] + Without(l1, q')) == Elements(l) - {l[k]}
  {
    hide Distinct;
    var q' := if q < k then q else q - 1;
    var l1 := Without(l, k);
    assert l1[q'] == l[q];
    WithoutElements(l, k);
    WithoutElements(l1, q');
  }

  lemma ReleasedIs(bs: seq<Block>, i: nat)
    requires i < |bs|
    ensures |Released(bs, i)| == |bs| && Released(bs, i)[i].addr == bs[i].addr && !Released(bs, i)[i].used
    ensures forall j :: 0 <= j < |bs| && j != i ==> Released(bs, i)[j] == bs[j]
  {
  }

  lemma JoinedIs(H: nat, bs: seq<Block>, i: nat)
    requires i < |bs|
    ensures IsFree(bs, i + 1) ==>
              var j := Joined(H, bs, i);
              i < |j| && j[i].addr == bs[i].addr && !j[i].used && (i > 0 ==> j[i - 1] == bs[i - 1])
  {
  }

  lemma AllSeen(node: map<nat, Node>, head: nat, l: seq<nat>, k: nat)
    requires Linked(node, head, l) && k <= |l| && At(l, k) == 0
    ensures k == |l|
  {
  }

  lemma SplitRoom(H: nat, size: nat, whole: nat)
    requires size > 0 && BlockTotal(H, whole) - BlockTotal(H, size) >= BlockTotal(H, 0) + MIN_BLOCK
    ensures 0 < BlockTotal(H, size) && BlockTotal(H, size) + H < BlockTotal(H, whole)
  {
  }

  /** A block in use where a free one was is new among those in use. */
  lemma NewBlock(s: Layout, i: nat, b: Block, size: nat)
    requires Inv(s) && i < |s.bs| && !s.bs[i].used && b.used && b.addr == s.bs[i].addr
    ensures b !in Live(s.bs)
  {
    hide Tiles, FreeAddrs, Headers, Linked;
    if b in s.bs {
      var j :| 0 <= j < |s.bs| && s.bs[j] == b;
      SameBlock(s.H, s.bs, s.start, s.end, i, j);
    }
  }

  lemma FreshTail(s: Layout, i: nat, k: nat, x: nat)
    requires Inv(s) && i < |s.bs| && k < |s.l|
    requires s.bs[i].addr + s.H < x < s.bs[i].addr + BlockTotal(s.H, s.bs[i].size)
    ensures x !in Without(s.l, k) && x != 0
  {
    hide Inv, BlockTotal;
    NewAddress(s, i, x);
  }

  lemma HeadListed(node: map<nat, Node>, head: nat, l: seq<nat>)
    requires Linked(node, head, l)
    ensures head != 0 ==> head in node && head in l
  {
  }

  /** The first block covers the whole heap. */
  lemma FirstBlock(H: nat, base: nat, total: nat)
    requires GoodHeader(H) && base > 0 && total % 16 == 0 && total >= PAGE_SIZE
    ensures Inv(Layout(H, base, base + total,
                       map[base := Header(total - H, false)], Pushed(map[], 0, base + H), base + H,
                       [Block(base, total - H, false)], [base + H]))
  {
    hide BlockTotal;
    WholeBlock(H, total);
    One(H, Block(base, total - H, false));
    PushLinks(map[], 0, [], base + H);
    assert [base + H] + [] == [base + H];
  }

  lemma GrowthKeeps(s: Layout, pages: nat)
    requires GoodHeader(s.H) && pages > 0 && Inv(s)
    ensures var b := Block(s.end, pages * PAGE_SIZE - s.H, false);
            var x := s.end + s.H;
            x !in s.l && Linked(s.node, s.head, s.l) &&
            Inv(s.(end := s.end + pages * PAGE_SIZE, hdr := s.hdr[s.end := Header(b.size, false)],
                   node := Pushed(s.node, s.head, x), head := x, bs := s.bs + [b], l := [x] + s.l)) &&
            Live(s.bs + [b]) == Live(s.bs)
  {
    hide BlockTotal, Tiles, Linked, FreeAddrs, Pushed, Headers;
    var region := pages * PAGE_SIZE;
    var b := Block(s.end, region - s.H, false);
    WholeBlock(s.H, region);
    One(s.H, b);
    TilesJoin(s.H, s.bs, [b], s.start, s.end, s.end + region);
    if s.end + s.H in s.l {
      assert s.end + s.H in FreeAddrs(s.H, s.bs);
      FreeInside(s.H, s.bs, s.start, s.end, s.end + s.H);
    }
    PushLinks(s.node, s.head, s.l, s.end + s.H);
    ElementsPush(s.l, s.end + s.H);
    FreeJoin(s.H, s.bs, [b]);
    var hdr' := s.hdr[s.end := Header(b.size, false)];
    TilesUp(s.H, s.bs, s.start, s.end);
    HeadersKept(s.H, s.hdr, hdr', s.bs, s.start, s.end);
    HeadersOne(hdr', b);
    HeadersJoin(hdr', s.bs, [b]);
  }

  lemma HeadersOne(hdr: map<nat, Header>, b: Block)
    requires b.addr in hdr && hdr[b.addr] == Header(b.size, b.used)
    ensures Headers(hdr, [b])
  {
  }

  /** Buffers of the sizes asked for, in two different blocks in use, do not overlap and lie inside
      the heap; this is more than the sizes in the headers say, which a reused block keeps from its
      last use. */
  lemma LiveApart(s: Layout, b: Block, p: nat, n: nat, c: Block, q: nat, m: nat)
    requires Inv(s) && b in Live(s.bs) && c in Live(s.bs) && b != c
    requires Fits(s.H, b, p, n) && Fits(s.H, c, q, m)
    ensures s.start <= p && p + n <= s.end
    ensures p != q && (p + n <= q || q + m <= p)
  {
    hide Tiles, FreeAddrs, Headers, Linked, BlockTotal;
    var i :| 0 <= i < |s.bs| && s.bs[i] == b;
    var j :| 0 <= j < |s.bs| && s.bs[j] == c;
    FitsInside(s, i, p, n);
    FitsInside(s, j, q, m);
    if i < j {
      TilesOrdered(s.H, s.bs, s.start, s.end, i, j);
    } else {
      TilesOrdered(s.H, s.bs, s.start, s.end, j, i);
    }
  }

  lemma FitsInside(s: Layout, i: nat, p: nat, n: nat)
    requires Inv(s) && i < |s.bs| && Fits(s.H, s.bs[i], p, n)
    ensures var b := s.bs[i];
            && s.start <= b.addr && b.addr + s.H == p && p + n <= b.addr + BlockTotal(s.H, b.size) <= s.end
            && b.addr < b.addr + BlockTotal(s.H, b.size)
  {
    hide Tiles, FreeAddrs, Headers, Linked, BlockTotal;
    TilesInside(s.H, s.bs, s.start, s.end, i);
    TotalAtLeast(s.H, s.bs[i].size);
    AlignUpMeaning(n);
  }

  /** The list holds each free block exactly once and no other address. */
  lemma ListedOnce(s: Layout, i: nat)
    requires Inv(s) && i < |s.bs|
    ensures s.bs[i].used ==> s.bs[i].addr + s.H !in s.l
    ensures !s.bs[i].used ==>
              exists k :: 0 <= k < |s.l| && s.l[k] == s.bs[i].addr + s.H &&
                          forall j :: 0 <= j < |s.l| && j != k ==> s.l[j] != s.bs[i].addr + s.H
  {
    hide Tiles, FreeAddrs, Headers, BlockTotal;
    if s.bs[i].used {
      UsedNotListed(s, i);
    } else {
      var k := FreePosition(s, i);
    }
  }

  /** The first block of a fresh heap ends where the heap ends exactly when the header is a
      multiple of 16 bytes. */
  lemma FirstBlockTiles(H: nat, base: nat, pages: nat)
    requires H < pages * PAGE_SIZE
    ensures Tiles(H, [Block(base, pages * PAGE_SIZE - H, false)], base, base + pages * PAGE_SIZE) <==> H % 16 == 0
  {
    hide BlockTotal;
    WholeRegion(pages);
    WholeBlock(H, pages * PAGE_SIZE);
    var b := Block(base, pages * PAGE_SIZE - H, false);
    assert [b][1..] == [];
  }

  /** With the eight bytes that the header structure really has, it reaches past the end. */
  lemma EightByteHeader(base: nat, pages: nat)
    requires pages > 0
    ensures !Tiles(8, [Block(base, pages * PAGE_SIZE - 8, false)], base, base + pages * PAGE_SIZE)
  {
    hide BlockTotal, Tiles;
    FirstBlockTiles(8, base, pages);
  }

  // ---------- runs ----------

  ghost function LiveAddrs(H: nat, bs: seq<Block>): set<nat> { set b | b in Live(bs) :: b.addr + H }

  /** The pointers held are exactly the payloads of the blocks in use, each with room for the
      size that was asked for. */
  ghost predicate Holds(H: nat, bs: seq<Block>, held: map<nat, nat>) {
    && LiveAddrs(H, bs) == held.Keys
    && forall p :: p in held ==> HasRoom(H, bs, p, held[p])
  }

  ghost predicate HasRoom(H: nat, bs: seq<Block>, p: nat, size: nat) {
    exists b :: b in Live(bs) && Fits(H, b, p, size)
  }

  /** The buffers held, each of the size that was asked for, lie inside the heap and are pairwise
      disjoint. */
  ghost predicate Separate(start: nat, end: nat, held: map<nat, nat>) {
    && (forall p :: p in held ==> start <= p && p + held[p] <= end)
    && (forall p, q :: p in held && q in held && p != q ==> p + held[p] <= q || q + held[q] <= p)
  }

  lemma HeldSeparate(s: Layout, held: map<nat, nat>)
    requires Inv(s) && Holds(s.H, s.bs, held)
    ensures Separate(s.start, s.end, held)
  {
    hide Inv, Live, Fits;
    forall p | p in held ensures s.start <= p && p + held[p] <= s.end {
      var b := RoomOf(s, p, held[p]);
    }
    forall p, q | p in held && q in held && p != q ensures p + held[p] <= q || q + held[q] <= p {
      var b := RoomOf(s, p, held[p]);
      var c := RoomOf(s, q, held[q]);
      FitsIs(s.H, b, p, held[p]);
      FitsIs(s.H, c, q, held[q]);
      LiveApart(s, b, p, held[p], c, q, held[q]);
    }
  }

  lemma RoomOf(s: Layout, p: nat, size: nat) returns (b: Block)
    requires Inv(s) && HasRoom(s.H, s.bs, p, size)
    ensures b in Live(s.bs) && Fits(s.H, b, p, size) && s.start <= p && p + size <= s.end
  {
    hide Inv, Fits;
    b :| b in Live(s.bs) && Fits(s.H, b, p, size);
    var i :| 0 <= i < |s.bs| && s.bs[i] == b;
    FitsInside(s, i, p, size);
  }

  lemma HoldsMore(s: Layout, before: seq<Block>, held: map<nat, nat>, b: Block, p: nat, size: nat)
    requires Inv(s) && Holds(s.H, before, held) && Fits(s.H, b, p, size)
    requires b !in Live(before) && Live(s.bs) == Live(before) + {b}
    ensures Holds(s.H, s.bs, held[p := size])
  {
    hide Inv, Live, Fits;
    FitsIs(s.H, b, p, size);
    assert LiveAddrs(s.H, s.bs) == LiveAddrs(s.H, before) + {p};
    forall q | q in held ensures HasRoom(s.H, s.bs, q, held[q]) {
      assert HasRoom(s.H, before, q, held[q]);
    }
    assert HasRoom(s.H, s.bs, p, size);
  }

  lemma HoldsLess(s: Layout, after: seq<Block>, held: map<nat, nat>, b: Block)
    requires Inv(s) && Holds(s.H, s.bs, held)
    requires b in Live(s.bs) && Live(after) == Live(s.bs) - {b}
    ensures Holds(s.H, after, held - {b.addr + s.H})
  {
    hide Inv, Live, Fits;
    forall c | c in Live(s.bs) && c != b ensures c.addr != b.addr {
      LiveAddrsApart(s, b, c);
    }
    var p := b.addr + s.H;
    assert LiveAddrs(s.H, after) == LiveAddrs(s.H, s.bs) - {p};
    forall q | q in held && q != p ensures HasRoom(s.H, after, q, held[q]) {
      var c := RoomOf(s, q, held[q]);
      FitsIs(s.H, c, q, held[q]);
    }
  }

  lemma LiveAddrsApart(s: Layout, b: Block, c: Block)
    requires Inv(s) && b in Live(s.bs) && c in Live(s.bs) && b != c
    ensures b.addr != c.addr
  {
    hide BlockTotal, Tiles, Headers, FreeAddrs, Linked;
    var i :| 0 <= i < |s.bs| && s.bs[i] == b;
    var j :| 0 <= j < |s.bs| && s.bs[j] == c;
    if b.addr == c.addr {
      SameBlock(s.H, s.bs, s.start, s.end, i, j);
    }
  }

  /** The block in use that a pointer held belongs to. */
  lemma HeldBlock(H: nat, bs: seq<Block>, held: map<nat, nat>, p: nat) returns (i: nat)
    requires Holds(H, bs, held) && p in held
    ensures i < |bs| && bs[i].used && bs[i].addr + H == p && bs[i] in Live(bs)
  {
    assert p in LiveAddrs(H, bs);
    var b :| b in Live(bs) && b.addr + H == p;
    i :| 0 <= i < |bs| && bs[i] == b;
  }

  /** Over any run of requests on a fresh heap, with growth whenever it is needed, the heap stays
      sound, the blocks in use are exactly the pointers handed out and not yet given back, and the
      buffers held are pairwise disjoint at the sizes asked for. The run never has two
      neighbouring free blocks if and only if no request grew the heap in vain behind a free
      block, and every block freed while there is no such pair ends up alone. */
  method Serve(heap: KernelHeap, requests: seq<Request>) returns (held: map<nat, nat>, ghost trace: seq<Picture>)
    requires heap.Valid() && Live(heap.bs) == {} && NoFreePair(heap.bs)
    modifies heap
    ensures heap.Valid() && Holds(heap.H, heap.bs, held) && Separate(heap.base, heap.end, held)
    ensures Trace(heap.H, heap.base, trace, requests)
    ensures trace[0] == old(heap.View()) && trace[|requests|] == heap.View()
    ensures (forall n :: 0 <= n <= |requests| ==> NoFreePair(trace[n].bs)) <==>
            (forall n :: 0 <= n < |requests| ==> !MakesPair(heap.H, heap.base, trace[n], requests[n]))
    ensures forall n :: 0 <= n < |requests| && requests[n].Put? && NoFreePair(trace[n].bs) && trace[n + 1] != trace[n]
              ==> FreesAlone(heap.H, trace[n], requests[n].p, trace[n + 1])
  {
    hide Inv, Live, Holds, NoFreePair, Answers, Separate, MakesPair, FreesAlone;
    held, trace := map[], [heap.View()];
    NothingHeld(heap.H, heap.bs);
    for n := 0 to |requests|
      invariant heap.Valid() && Holds(heap.H, heap.bs, held)
      invariant Trace(heap.H, heap.base, trace, requests[..n])
      invariant trace[0] == old(heap.View()) && trace[n] == heap.View()
    {
      ghost var t := heap.View();
      match requests[n] {
        case Get(size) =>
          var p := ServeGet(heap, size, held);
          if p != 0 {
            held := held[p := size];
          }
        case Put(p) =>
          if p in held {
            ServePut(heap, held, p);
            held := held - {p};
          } else {
            NothingPut(heap.H, heap.base, t, p);
          }
      }
      Traced(heap.H, heap.base, trace, requests[..n], t, requests[n], heap.View());
      trace := trace + [heap.View()];
      assert requests[..n + 1] == requests[..n] + [requests[n]];
    }
    assert requests[..|requests|] == requests;
    HeldSeparate(heap.State(), held);
    NeverAPair(heap.H, heap.base, trace, requests);
    EveryPutAlone(heap.H, heap.base, trace, requests);
  }

  method ServeGet(heap: KernelHeap, size: nat, ghost held: map<nat, nat>) returns (p: nat)
    requires heap.Valid() && Holds(heap.H, heap.bs, held)
    modifies heap
    ensures heap.Valid() && Holds(heap.H, heap.bs, if p == 0 then held else held[p := size])
    ensures Answers(heap.H, heap.base, old(heap.View()), Get(size), heap.View())
  {
    hide Inv, Live, Fits, Holds, NoFreePair, Allocates, NoneFits;
    ghost var before := heap.bs;
    p := heap.Kmalloc(size);
    if p != 0 {
      ghost var b :| b !in Live(before) && Live(heap.bs) == Live(before) + {b} && Fits(heap.H, b, p, size);
      HoldsMore(heap.State(), before, held, b, p, size);
    } else {
      SameLive(heap.H, before, heap.bs, held);
    }
  }

  method ServePut(heap: KernelHeap, ghost held: map<nat, nat>, p: nat)
    requires heap.Valid() && Holds(heap.H, heap.bs, held) && p in held
    modifies heap
    ensures heap.Valid() && Holds(heap.H, heap.bs, held - {p})
    ensures Answers(heap.H, heap.base, old(heap.View()), Put(p), heap.View())
  {
    hide Inv, Live, Freed, Holds;
    ghost var i := HeldBlock(heap.H, heap.bs, held, p);
    BlockInMemory(heap.State(), i);
    ghost var s, t := heap.State(), heap.View();
    heap.Kfree(p, i);
    HoldsLess(s, heap.bs, held, s.bs[i]);
    assert Frees(heap.H, t.bs, i, p, heap.bs);
  }

  lemma FitsIs(H: nat, b: Block, p: nat, size: nat)
    requires Fits(H, b, p, size)
    ensures p == b.addr + H
  {
  }

  lemma NothingHeld(H: nat, bs: seq<Block>)
    requires Live(bs) == {}
    ensures Holds(H, bs, map[])
  {
  }

  lemma SameLive(H: nat, bs: seq<Block>, after: seq<Block>, held: map<nat, nat>)
    requires Holds(H, bs, held) && Live(after) == Live(bs)
    ensures Holds(H, after, held)
  {
    hide Live, Fits;
    forall p | p in held ensures HasRoom(H, after, p, held[p]) {
      assert HasRoom(H, bs, p, held[p]);
    }
  }

  // ---------- a free pair that a run reaches ----------

  const FIRST: Block := Block(0x1000, 4080, false)

  lemma FirstSplit(p: nat, t: Picture)
    requires Allocates(16, 0x1000, Picture([FIRST], 0x2000, 1), 100, p, t)
    ensures p == 0x1010 && t == Picture([Block(0x1000, 100, true), Block(0x1080, 3952, false)], 0x2000, 1)
  {
    assert BlockTotal(16, 100) == 128 && BlockTotal(16, 4080) == 4096 && BlockTotal(16, 0) == 16;
    FoundFits(16, [FIRST], 0, 128);
    assert [FIRST][..0] == [] && [FIRST][0 + 1..] == [];
  }

  /** 20 000 bytes need five pages, and there is one. */
  lemma FivePages(bs: seq<Block>)
    requires bs == [Block(0x1000, 100, true), Block(0x1080, 3952, false)]
    ensures GrowsInVain(16, 0x1000, Picture(bs, 0x2000, 1), 20000)
    ensures Granted(16, 0x1000, Picture(bs, 0x2000, 1), 20000) == 1
  {
    assert BlockTotal(16, 20000) == 20016 && PagesFor(20016) == 5 && BlockTotal(16, 3952) == 3968;
    assert Wanted(0x1000, 5) == 5;
  }

  /** A heap of one page with one more to be had: a request that does not fit grows it in vain,
      and the block freed next keeps a free neighbour. */
  method FreePairRun() returns (heap: KernelHeap, ghost j: nat)
    ensures fresh(heap) && heap.Valid() && IsFree(heap.bs, j) && IsFree(heap.bs, j + 1)
  {
    hide Inv, Live, Fits, Freed, NoFreePair, Wanted, Allotted, BlockTotal, NoneFits;
    heap := new KernelHeap(16, 0x1000, 1, 1);
    assert heap.bs == [FIRST];
    var p := heap.Kmalloc(100);
    FirstSplit(p, heap.View());
    ghost var bs := heap.bs;
    FivePages(bs);
    var q := heap.Kmalloc(20000);
    ghost var after := heap.bs;
    assert after == bs + [Block(0x2000, 4080, false)];
    BlockInMemory(heap.State(), 0);
    heap.Kfree(p, 0);
    FreedNeighbours(16, after, 0);
    j := Place(after, 0);
  }
}
