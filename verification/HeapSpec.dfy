/** What kmalloc and kfree do to the blocks, the end of the heap and the pages still to be had, and
    what that means for neighbouring free blocks over whole runs. */
module HeapSpec {
  import opened Units
  import opened HeapBlocks
  import opened HeapSteps

  const HEAP_MAX: nat := 256 * 1024 * 1024

  /** A header size for which blocks tile: a multiple of 16 that leaves room in a page. */
  predicate GoodHeader(H: nat) { 0 < H <= PAGE_SIZE - MIN_BLOCK && H % 16 == 0 }

  // ---------- growth ----------

  /** The number of pages that growth asks for: those needed, at least a quarter of the heap and
      at least four, as far as the limit allows. */
  function Wanted(current: nat, minPages: nat): nat {
    var quarter := current / PAGE_SIZE / 4;
    var pages := if quarter > minPages then quarter else minPages;
    var pages4 := if pages < 4 then 4 else pages;
    if current + pages4 * PAGE_SIZE <= HEAP_MAX then pages4
    else if current <= HEAP_MAX then (HEAP_MAX - current) / PAGE_SIZE
    else 0
  }

  /** The number of pages that growth gets. */
  function Grant(supply: nat, current: nat, minPages: nat): (n: nat)
    ensures n <= supply
  {
    var pages := Wanted(current, minPages);
    if pages <= supply then pages else supply
  }

  /** The pages that hold so many bytes. */
  function PagesFor(total: nat): (n: nat)
    ensures total > 0 ==> n > 0
  {
    (total + PAGE_SIZE - 1) / PAGE_SIZE
  }

  /** A growth that falls short of what was asked for is the last one. */
  lemma GrantExhausts(supply: nat, current: nat, minPages: nat)
    ensures var n := Grant(supply, current, minPages);
            n < minPages ==> Grant(supply - n, current + n * PAGE_SIZE, minPages) == 0
  {
    var n := Grant(supply, current, minPages);
    if n < minPages && n < supply {
      assert current + minPages * PAGE_SIZE > HEAP_MAX;
      if current <= HEAP_MAX {
        var rest := HEAP_MAX - current;
        assert rest == rest / PAGE_SIZE * PAGE_SIZE + rest % PAGE_SIZE;
      }
    }
  }

  /** What growth gets, with the limit of 256 MiB: the pages needed, a quarter of the heap or four,
      whichever is most, unless the supply or the room below the limit is used up. */
  lemma GrantMeaning(supply: nat, current: nat, minPages: nat)
    ensures var n := Grant(supply, current, minPages);
            && (n > 0 ==> current + 4096 * n <= 256 * 1024 * 1024)
            && n <= supply && (n <= minPages || n <= current / 16384 || n <= 4)
            && ((n >= minPages && n >= current / 16384 && n >= 4) || n == supply ||
                current + 4096 * n + 4096 > 256 * 1024 * 1024)
  {
    assert current / PAGE_SIZE / 4 == current / 16384;
  }

  /** Growth gets the pages needed if and only if the supply and the limit allow them. */
  lemma GrantEnough(supply: nat, current: nat, minPages: nat)
    requires minPages > 0
    ensures Grant(supply, current, minPages) >= minPages <==>
            supply >= minPages && current + 4096 * minPages <= 256 * 1024 * 1024
  {
  }

  /** The pages that a request needs, in plain numbers. */
  lemma NeededMeaning(H: nat, size: nat)
    ensures Needed(H, size) == ((size + 15) / 16 * 16 + H + 4095) / 4096
  {
  }

  // ---------- the calls ----------

  /** The blocks in address order, the end of the heap, and the pages still to be had. */
  datatype Picture = Picture(bs: seq<Block>, end: nat, supply: nat)

  /** The heap grown by so many pages: one free block more, if any. */
  ghost function Grew(H: nat, t: Picture, pages: nat): (t': Picture)
    requires H <= PAGE_SIZE && pages <= t.supply
    ensures |t'.bs| == |t.bs| + (if pages == 0 then 0 else 1) && t'.end >= t.end
    ensures t'.supply == t.supply - pages && (pages == 0 ==> t' == t)
  {
    if pages == 0 then t
    else Picture(t.bs + [Block(t.end, pages * PAGE_SIZE - H, false)], t.end + pages * PAGE_SIZE, t.supply - pages)
  }

  /** Block i is free, large enough and handed out. */
  ghost predicate HandsOut(H: nat, bs: seq<Block>, i: nat, size: nat, p: nat, bs': seq<Block>) {
    && i < |bs| && !bs[i].used && BlockTotal(H, bs[i].size) >= BlockTotal(H, size)
    && p == bs[i].addr + H && bs' == Allotted(H, bs, i, size)
  }

  /** The pages that a request of so many bytes needs, and those it gets. */
  function Needed(H: nat, size: nat): (n: nat)
    ensures H > 0 ==> n > 0
  {
    PagesFor(BlockTotal(H, size))
  }

  function Granted(H: nat, base: nat, t: Picture, size: nat): (n: nat)
    requires base <= t.end
    ensures n <= t.supply
  {
    Grant(t.supply, t.end - base, Needed(H, size))
  }

  /** kmalloc: a free block that is large enough; if there is none, the heap grows, and the new
      block is used if it covers the pages needed. */
  ghost predicate Allocates(H: nat, base: nat, t: Picture, size: nat, p: nat, t': Picture)
    requires GoodHeader(H) && base <= t.end
  {
    if size == 0 then p == 0 && t' == t
    else if !NoneFits(H, t.bs, BlockTotal(H, size)) then
      t'.end == t.end && t'.supply == t.supply && exists i: nat :: HandsOut(H, t.bs, i, size, p, t'.bs)
    else
      var grown := Grew(H, t, Granted(H, base, t, size));
      if Granted(H, base, t, size) < Needed(H, size) then p == 0 && t' == grown
      else p == t.end + H && t' == grown.(bs := Allotted(H, grown.bs, |t.bs|, size))
  }

  /** The request finds no block, and the growth it causes is too small for it. */
  ghost predicate GrowsInVain(H: nat, base: nat, t: Picture, size: nat)
    requires base <= t.end
  {
    size > 0 && NoneFits(H, t.bs, BlockTotal(H, size)) && 0 < Granted(H, base, t, size) < Needed(H, size)
  }

  /** The block that growth appends has room exactly when it covers the pages that were needed. */
  lemma GrownBlock(H: nat, t: Picture, pages: nat, size: nat)
    requires GoodHeader(H) && 0 < pages <= t.supply
    ensures var b := Grew(H, t, pages).bs[|t.bs|];
            !b.used && (BlockTotal(H, b.size) >= BlockTotal(H, size) <==> pages >= Needed(H, size))
  {
    hide BlockTotal;
    WholeRegion(pages);
    WholeBlock(H, pages * PAGE_SIZE);
    Covers(pages, BlockTotal(H, size));
  }

  lemma WholeRegion(pages: nat)
    ensures pages * PAGE_SIZE % 16 == 0
  {
    assert pages * PAGE_SIZE == 16 * (pages * 256);
  }

  lemma Covers(pages: nat, total: nat)
    ensures pages >= PagesFor(total) <==> pages * PAGE_SIZE >= total
  {
  }

  /** With no block large enough before, only the appended one can be. */
  lemma OnlyGrown(H: nat, t: Picture, pages: nat, size: nat, p: nat, bs': seq<Block>)
    requires GoodHeader(H) && 0 < pages <= t.supply && NoneFits(H, t.bs, BlockTotal(H, size))
    ensures NoneFits(H, Grew(H, t, pages).bs, BlockTotal(H, size)) <==> pages < Needed(H, size)
    ensures (exists i: nat :: HandsOut(H, Grew(H, t, pages).bs, i, size, p, bs')) ==>
              p == t.end + H && bs' == Allotted(H, Grew(H, t, pages).bs, |t.bs|, size)
  {
    hide BlockTotal, Allotted;
    GrownBlock(H, t, pages, size);
    var grown := Grew(H, t, pages).bs;
    assert forall i :: 0 <= i < |t.bs| ==> grown[i] == t.bs[i];
    if pages >= Needed(H, size) {
      FoundFits(H, grown, |t.bs|, BlockTotal(H, size));
    }
  }

  lemma NothingAllocated(H: nat, base: nat, t: Picture)
    requires GoodHeader(H) && base <= t.end
    ensures Allocates(H, base, t, 0, 0, t)
  {
  }

  lemma HandedOut(H: nat, base: nat, t: Picture, i: nat, size: nat, p: nat, bs': seq<Block>)
    requires GoodHeader(H) && base <= t.end && size > 0 && !NoneFits(H, t.bs, BlockTotal(H, size))
    requires HandsOut(H, t.bs, i, size, p, bs')
    ensures Allocates(H, base, t, size, p, t.(bs := bs')) && p != 0
  {
    hide NoneFits, HandsOut;
    assert p != 0 by {
      HandedAt(H, t.bs, i, size, p, bs');
    }
  }

  lemma HandedAt(H: nat, bs: seq<Block>, i: nat, size: nat, p: nat, bs': seq<Block>)
    requires HandsOut(H, bs, i, size, p, bs')
    ensures p >= H
  {
  }

  lemma NotGrown(H: nat, base: nat, t: Picture, size: nat)
    requires GoodHeader(H) && base <= t.end && size > 0 && NoneFits(H, t.bs, BlockTotal(H, size))
    requires Granted(H, base, t, size) == 0
    ensures Allocates(H, base, t, size, 0, t)
  {
    hide NoneFits, Needed;
  }

  /** Where no block was large enough, kmalloc answers null exactly when growth gives too little. */
  lemma NullExactly(H: nat, base: nat, t: Picture, size: nat, p: nat, t': Picture)
    requires GoodHeader(H) && base <= t.end && size > 0 && NoneFits(H, t.bs, BlockTotal(H, size))
    requires Allocates(H, base, t, size, p, t')
    ensures p == 0 <==> Granted(H, base, t, size) < Needed(H, size)
    ensures p != 0 ==> t'.end > t.end
  {
    hide NoneFits;
  }

  /** What a retry after growth does is what the call as a whole does. */
  lemma Retried(H: nat, base: nat, t: Picture, size: nat, p: nat, t': Picture)
    requires GoodHeader(H) && base <= t.end && size > 0 && NoneFits(H, t.bs, BlockTotal(H, size))
    requires Granted(H, base, t, size) > 0
    requires Allocates(H, base, Grew(H, t, Granted(H, base, t, size)), size, p, t')
    ensures Allocates(H, base, t, size, p, t')
  {
    hide NoneFits, HandsOut, Needed, Grant, Allotted;
    var n := Granted(H, base, t, size);
    OnlyGrown(H, t, n, size, p, t'.bs);
    GrantExhausts(t.supply, t.end - base, Needed(H, size));
  }

  /** kmalloc makes a free pair exactly when it grows the heap in vain behind a free block. */
  lemma PairsExactly(H: nat, base: nat, t: Picture, size: nat, p: nat, t': Picture)
    requires GoodHeader(H) && base <= t.end && Allocates(H, base, t, size, p, t') && NoFreePair(t.bs)
    ensures !NoFreePair(t'.bs) <==> GrowsInVain(H, base, t, size) && IsFree(t.bs, |t.bs| - 1)
  {
    hide NoFreePair, NoneFits, Needed, Grant, Allotted, BlockTotal;
    var n := Granted(H, base, t, size);
    if size > 0 && !NoneFits(H, t.bs, BlockTotal(H, size)) {
      var i: nat :| HandsOut(H, t.bs, i, size, p, t'.bs);
      AllottedKeepsNoPair(H, t.bs, i, size);
    } else if size > 0 && 0 < n {
      var grown := Grew(H, t, n).bs;
      assert grown[..|t.bs|] == t.bs;
      if n < Needed(H, size) {
        GrowthMakes(t.bs, grown[|t.bs|]);
      } else {
        LastAllotted(H, grown, |t.bs|, size);
      }
    }
  }

  lemma GrowthMakes(bs: seq<Block>, b: Block)
    requires !b.used && NoFreePair(bs)
    ensures !NoFreePair(bs + [b]) <==> IsFree(bs, |bs| - 1)
  {
    if bs != [] {
      GrowthPairs(bs, b);
    }
  }

  // ---------- runs ----------

  /** A request: memory, or the release of a pointer. */
  datatype Request = Get(size: nat) | Put(p: nat)

  /** kfree of the block numbered i. */
  ghost predicate Frees(H: nat, bs: seq<Block>, i: nat, p: nat, bs': seq<Block>) {
    i < |bs| && bs[i].used && bs[i].addr + H == p && bs' == Freed(H, bs, i)
  }

  /** One request answered; the release of a pointer that is not held changes nothing. */
  ghost predicate Answers(H: nat, base: nat, t: Picture, r: Request, t': Picture)
    requires GoodHeader(H)
  {
    base <= t.end &&
    match r
    case Get(size) => exists p :: Allocates(H, base, t, size, p, t')
    case Put(p) => t' == t || (t' == t.(bs := t'.bs) && exists i: nat :: Frees(H, t.bs, i, p, t'.bs))
  }

  /** The pictures before each request and after the last one. */
  ghost predicate Trace(H: nat, base: nat, ts: seq<Picture>, rs: seq<Request>)
    requires GoodHeader(H)
  {
    |ts| == |rs| + 1 && forall n :: 0 <= n < |rs| ==> Answers(H, base, ts[n], rs[n], ts[n + 1])
  }

  lemma NothingPut(H: nat, base: nat, t: Picture, p: nat)
    requires GoodHeader(H) && base <= t.end
    ensures Answers(H, base, t, Put(p), t)
  {
  }

  lemma Traced(H: nat, base: nat, ts: seq<Picture>, rs: seq<Request>, t: Picture, r: Request, t': Picture)
    requires GoodHeader(H) && Trace(H, base, ts, rs) && ts[|rs|] == t && Answers(H, base, t, r, t')
    ensures Trace(H, base, ts + [t'], rs + [r])
  {
    hide Answers;
    var ts1, rs1 := ts + [t'], rs + [r];
    forall n | 0 <= n < |rs1| ensures Answers(H, base, ts1[n], rs1[n], ts1[n + 1]) {
      if n < |rs| {
        assert Answers(H, base, ts[n], rs[n], ts[n + 1]);
      }
    }
  }

  /** A request that leaves two free blocks side by side where there were none. */
  ghost predicate MakesPair(H: nat, base: nat, t: Picture, r: Request) {
    r.Get? && base <= t.end && GrowsInVain(H, base, t, r.size) && IsFree(t.bs, |t.bs| - 1)
  }

  lemma AnswerPairs(H: nat, base: nat, t: Picture, r: Request, t': Picture)
    requires GoodHeader(H) && Answers(H, base, t, r, t') && NoFreePair(t.bs)
    ensures !NoFreePair(t'.bs) <==> MakesPair(H, base, t, r)
  {
    hide NoFreePair, Allocates, GrowsInVain, Freed;
    match r
    case Get(size) =>
      var p :| Allocates(H, base, t, size, p, t');
      PairsExactly(H, base, t, size, p, t');
    case Put(p) =>
      if t' != t {
        var i: nat :| Frees(H, t.bs, i, p, t'.bs);
        FreedKeepsNoPair(H, t.bs, i);
      }
  }

  /** A heap stays without a free pair for a whole run if and only if no request of the run grows
      it in vain behind a free block. */
  lemma {:induction false} NeverAPair(H: nat, base: nat, ts: seq<Picture>, rs: seq<Request>)
    requires GoodHeader(H) && Trace(H, base, ts, rs) && NoFreePair(ts[0].bs)
    ensures (forall n :: 0 <= n <= |rs| ==> NoFreePair(ts[n].bs)) <==>
            (forall n :: 0 <= n < |rs| ==> !MakesPair(H, base, ts[n], rs[n]))
    decreases |rs|
  {
    hide NoFreePair, MakesPair, Answers;
    if |rs| > 0 {
      var m := |rs| - 1;
      var ts0, rs0 := ts[..m + 1], rs[..m];
      assert Trace(H, base, ts0, rs0) by {
        forall n | 0 <= n < m ensures Answers(H, base, ts0[n], rs0[n], ts0[n + 1]) {
          assert Answers(H, base, ts[n], rs[n], ts[n + 1]);
        }
      }
      NeverAPair(H, base, ts0, rs0);
      assert forall n :: 0 <= n <= m ==> ts0[n] == ts[n];
      assert forall n :: 0 <= n < m ==> rs0[n] == rs[n];
      assert Answers(H, base, ts[m], rs[m], ts[m + 1]);
      if NoFreePair(ts[m].bs) {
        AnswerPairs(H, base, ts[m], rs[m], ts[m + 1]);
      }
    }
  }

  /** kfree of the pointer p, whose block ends up without a free neighbour. */
  ghost predicate FreesAlone(H: nat, t: Picture, p: nat, t': Picture) {
    exists i: nat :: Frees(H, t.bs, i, p, t'.bs) && Alone(t'.bs, Place(t.bs, i))
  }

  /** A block freed while there is no free pair ends up without a free neighbour. */
  lemma PutAlone(H: nat, base: nat, t: Picture, p: nat, t': Picture)
    requires GoodHeader(H) && Answers(H, base, t, Put(p), t') && NoFreePair(t.bs) && t' != t
    ensures FreesAlone(H, t, p, t')
  {
    hide NoFreePair, Freed, Place;
    var i: nat :| Frees(H, t.bs, i, p, t'.bs);
    FreedAlone(H, t.bs, i);
  }

  lemma EveryPutAlone(H: nat, base: nat, ts: seq<Picture>, rs: seq<Request>)
    requires GoodHeader(H) && Trace(H, base, ts, rs)
    ensures forall n :: 0 <= n < |rs| && rs[n].Put? && NoFreePair(ts[n].bs) && ts[n + 1] != ts[n] ==>
              FreesAlone(H, ts[n], rs[n].p, ts[n + 1])
  {
    hide NoFreePair, Answers, FreesAlone;
    forall n | 0 <= n < |rs| && rs[n].Put? && NoFreePair(ts[n].bs) && ts[n + 1] != ts[n]
      ensures FreesAlone(H, ts[n], rs[n].p, ts[n + 1])
    {
      assert Answers(H, base, ts[n], rs[n], ts[n + 1]);
      PutAlone(H, base, ts[n], rs[n].p, ts[n + 1]);
    }
  }

  // ---------- 64-bit sizes ----------

  const USIZE: nat := 0x1_0000_0000_0000_0000

  /** align_up, block_total and the page count on 64-bit integers that wrap around. */
  function WrappedAlignUp(n: nat): nat { (n + MIN_ALIGN - 1) % USIZE / MIN_ALIGN * MIN_ALIGN }

  function WrappedTotal(H: nat, size: nat): nat { (WrappedAlignUp(size) + H) % USIZE }

  function WrappedNeeded(H: nat, size: nat): nat { (WrappedTotal(H, size) + PAGE_SIZE - 1) % USIZE / PAGE_SIZE }

  /** kmalloc computes the block size and the page count without wrapping if and only if the block
      size stays a page below 2^64. */
  lemma SizesFit(H: nat, size: nat)
    requires GoodHeader(H) && size < USIZE
    ensures WrappedTotal(H, size) == BlockTotal(H, size) && WrappedNeeded(H, size) == Needed(H, size) <==>
            BlockTotal(H, size) + 4095 < 0x1_0000_0000_0000_0000
  {
    if size + MIN_ALIGN - 1 >= USIZE {
      assert BlockTotal(H, size) >= USIZE;
    }
    if BlockTotal(H, size) < USIZE <= BlockTotal(H, size) + PAGE_SIZE - 1 {
      assert WrappedNeeded(H, size) == 0;
    }
  }

  /** Asked for the largest number, it wraps to a bare header, which every block covers. */
  lemma HugeRequest(H: nat)
    requires GoodHeader(H)
    ensures var most := 0xFFFF_FFFF_FFFF_FFFF;
            WrappedTotal(H, most) == H && forall size :: BlockTotal(H, size) >= WrappedTotal(H, most)
  {
  }
}
