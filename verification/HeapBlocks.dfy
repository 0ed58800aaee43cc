/** The blocks of the kernel heap: how they tile the region, and what replacing neighbouring
    blocks by others over the same addresses keeps. H is the size of a block header. */
module HeapBlocks {
  import opened FreeList

  const MIN_ALIGN: nat := 16
  const MIN_BLOCK: nat := 32

  /** align_up */
  function AlignUp(n: nat): nat { (n + MIN_ALIGN - 1) / MIN_ALIGN * MIN_ALIGN }

  /** block_total */
  function BlockTotal(H: nat, size: nat): (t: nat)
    ensures t >= H
  {
    AlignUp(size) + H
  }

  lemma AlignUpMeaning(n: nat)
    ensures AlignUp(n) % 16 == 0 && n <= AlignUp(n) < n + 16
  {
  }

  /** Of a 16-byte multiple, the payload that is left after the header leads back to the whole
      exactly when the header is itself a multiple of 16 bytes. */
  lemma WholeBlock(H: nat, region: nat)
    requires region % 16 == 0 && H <= region
    ensures BlockTotal(H, region - H) == region <==> H % 16 == 0
  {
  }

  datatype Header = Header(size: nat, used: bool)

  datatype Block = Block(addr: nat, size: nat, used: bool)

  /** The blocks fill the addresses from..to, one behind the other. */
  ghost predicate Tiles(H: nat, bs: seq<Block>, from: nat, to: nat) {
    if bs == [] then from == to
    else bs[0].addr == from && bs[0].size > 0 && Tiles(H, bs[1..], from + BlockTotal(H, bs[0].size), to)
  }

  lemma {:induction false} TilesJoin(H: nat, a: seq<Block>, b: seq<Block>, from: nat, mid: nat, to: nat)
    requires Tiles(H, a, from, mid) && Tiles(H, b, mid, to)
    ensures Tiles(H, a + b, from, to)
  {
    hide BlockTotal;
    if a == [] {
      assert a + b == b;
    } else {
      TilesJoin(H, a[1..], b, from + BlockTotal(H, a[0].size), mid, to);
      assert (a + b)[1..] == a[1..] + b;
    }
  }

  /** Where the blocks of a end, b begins. */
  lemma {:induction false} TilesCut(H: nat, a: seq<Block>, b: seq<Block>, from: nat, to: nat) returns (mid: nat)
    requires Tiles(H, a + b, from, to)
    ensures Tiles(H, a, from, mid) && Tiles(H, b, mid, to)
  {
    hide BlockTotal;
    if a == [] {
      mid := from;
      assert a + b == b;
    } else {
      assert (a + b)[1..] == a[1..] + b;
      mid := TilesCut(H, a[1..], b, from + BlockTotal(H, a[0].size), to);
    }
  }

  lemma {:induction false} TilesUp(H: nat, bs: seq<Block>, from: nat, to: nat)
    requires Tiles(H, bs, from, to)
    ensures from <= to && (bs != [] ==> from + H + 16 <= to)
  {
    hide BlockTotal;
    if bs != [] {
      TilesUp(H, bs[1..], from + BlockTotal(H, bs[0].size), to);
      TotalAtLeast(H, bs[0].size);
    }
  }

  lemma TotalAtLeast(H: nat, size: nat)
    requires size > 0
    ensures BlockTotal(H, size) >= H + 16 && BlockTotal(H, size) >= H + size
  {
  }

  /** Every block lies inside the region it tiles. */
  lemma {:induction false} TilesInside(H: nat, bs: seq<Block>, from: nat, to: nat, i: nat)
    requires Tiles(H, bs, from, to) && i < |bs|
    ensures bs[i].size > 0 && from <= bs[i].addr && bs[i].addr + BlockTotal(H, bs[i].size) <= to
  {
    hide BlockTotal;
    TilesUp(H, bs[1..], from + BlockTotal(H, bs[0].size), to);
    if i > 0 {
      TilesInside(H, bs[1..], from + BlockTotal(H, bs[0].size), to, i - 1);
      TotalAtLeast(H, bs[0].size);
    }
  }

  /** With an aligned header every block starts at a multiple of 16. */
  lemma {:induction false} TilesAligned(H: nat, bs: seq<Block>, from: nat, to: nat, i: nat)
    requires Tiles(H, bs, from, to) && i < |bs| && H % 16 == 0 && from % 16 == 0
    ensures bs[i].addr % 16 == 0
  {
    hide AlignUp;
    if i > 0 {
      AlignUpMeaning(bs[0].size);
      TilesAligned(H, bs[1..], from + BlockTotal(H, bs[0].size), to, i - 1);
    }
  }

  /** Two blocks never overlap. */
  lemma {:induction false} TilesOrdered(H: nat, bs: seq<Block>, from: nat, to: nat, i: nat, j: nat)
    requires Tiles(H, bs, from, to) && i < j < |bs|
    ensures bs[i].addr + BlockTotal(H, bs[i].size) <= bs[j].addr
  {
    hide BlockTotal;
    if i > 0 {
      TilesOrdered(H, bs[1..], from + BlockTotal(H, bs[0].size), to, i - 1, j - 1);
    } else {
      TilesInside(H, bs[1..], from + BlockTotal(H, bs[0].size), to, j - 1);
    }
  }

  // ---------- free blocks and headers ----------

  /** The payload addresses of the free blocks. */
  ghost function FreeAddrs(H: nat, bs: seq<Block>): set<nat> {
    if bs == [] then {} else (if bs[0].used then {} else {bs[0].addr + H}) + FreeAddrs(H, bs[1..])
  }

  lemma {:induction false} FreeMember(H: nat, bs: seq<Block>, i: nat)
    requires i < |bs| && !bs[i].used
    ensures bs[i].addr + H in FreeAddrs(H, bs)
  {
    if i > 0 {
      FreeMember(H, bs[1..], i - 1);
    }
  }

  lemma {:induction false} FreeIndex(H: nat, bs: seq<Block>, x: nat) returns (i: nat)
    requires x in FreeAddrs(H, bs)
    ensures i < |bs| && !bs[i].used && bs[i].addr + H == x
  {
    if !bs[0].used && x == bs[0].addr + H {
      i := 0;
    } else {
      var j := FreeIndex(H, bs[1..], x);
      i := j + 1;
    }
  }

  /** The blocks in use. */
  ghost function Live(bs: seq<Block>): set<Block> { set b | b in bs && b.used }

  ghost function Elements(l: seq<nat>): set<nat> { set x | x in l }

  lemma {:induction false} FreeJoin(H: nat, a: seq<Block>, b: seq<Block>)
    ensures FreeAddrs(H, a + b) == FreeAddrs(H, a) + FreeAddrs(H, b)
  {
    if a == [] {
      assert a + b == b;
    } else {
      FreeJoin(H, a[1..], b);
      assert (a + b)[1..] == a[1..] + b;
    }
  }

  lemma LiveJoin(a: seq<Block>, b: seq<Block>)
    ensures Live(a + b) == Live(a) + Live(b)
  {
  }

  lemma FreeInside(H: nat, bs: seq<Block>, from: nat, to: nat, x: nat)
    requires Tiles(H, bs, from, to) && x in FreeAddrs(H, bs)
    ensures from + H <= x < to
  {
    hide BlockTotal, Tiles, FreeAddrs;
    var i := FreeIndex(H, bs, x);
    TilesInside(H, bs, from, to, i);
    TotalAtLeast(H, bs[i].size);
  }

  /** Memory holds the header of every block. */
  ghost predicate Headers(hdr: map<nat, Header>, bs: seq<Block>) {
    forall i :: 0 <= i < |bs| ==> bs[i].addr in hdr && hdr[bs[i].addr] == Header(bs[i].size, bs[i].used)
  }

  lemma HeadersJoin(hdr: map<nat, Header>, a: seq<Block>, b: seq<Block>)
    ensures Headers(hdr, a + b) <==> Headers(hdr, a) && Headers(hdr, b)
  {
    var c := a + b;
    assert forall i :: 0 <= i < |a| ==> c[i] == a[i];
    assert forall i :: 0 <= i < |b| ==> c[|a| + i] == b[i];
    assert forall i :: 0 <= i < |c| ==> c[i] == if i < |a| then a[i] else b[i - |a|];
  }

  /** Writing headers inside one range leaves the blocks of another range alone. */
  lemma HeadersKept(H: nat, hdr: map<nat, Header>, hdr': map<nat, Header>, bs: seq<Block>, from: nat, to: nat)
    requires Headers(hdr, bs) && Tiles(H, bs, from, to)
    requires forall a :: from <= a < to && a in hdr ==> a in hdr' && hdr'[a] == hdr[a]
    ensures Headers(hdr', bs)
  {
    hide BlockTotal, Tiles;
    forall i | 0 <= i < |bs| ensures bs[i].addr in hdr' && hdr'[bs[i].addr] == Header(bs[i].size, bs[i].used) {
      TilesInside(H, bs, from, to, i);
      TotalAtLeast(H, bs[i].size);
    }
  }

  // ---------- the invariant ----------

  /** A heap as one value: the header size, its bounds, the headers and list nodes in memory, the
      head of the list, the blocks in address order and the list in its own order. */
  datatype Layout = Layout(H: nat, start: nat, end: nat, hdr: map<nat, Header>, node: map<nat, Node>, head: nat,
                           bs: seq<Block>, l: seq<nat>)

  /** The blocks tile the heap, their headers are in memory, and the list threads exactly the
      free ones. */
  ghost predicate Inv(s: Layout) {
    && Tiles(s.H, s.bs, s.start, s.end) && Headers(s.hdr, s.bs)
    && Linked(s.node, s.head, s.l) && FreeAddrs(s.H, s.bs) == Elements(s.l)
  }

  /** Replacing the blocks m between a and b by others over the same addresses. */
  lemma Rebuild(H: nat, start: nat, end: nat, hdr: map<nat, Header>, hdr': map<nat, Header>,
                a: seq<Block>, m: seq<Block>, m': seq<Block>, b: seq<Block>, p: nat, q: nat, free: set<nat>)
    requires Tiles(H, a, start, p) && Tiles(H, m, p, q) && Tiles(H, m', p, q) && Tiles(H, b, q, end)
    requires Headers(hdr, a + m + b) && Headers(hdr', m')
    requires forall x :: x in hdr && !(p <= x < q) ==> x in hdr' && hdr'[x] == hdr[x]
    requires FreeAddrs(H, a + m + b) == free
    ensures Tiles(H, a + m' + b, start, end) && Headers(hdr', a + m' + b)
    ensures FreeAddrs(H, a + m' + b) == free - FreeAddrs(H, m) + FreeAddrs(H, m')
    ensures Live(a + m + b) == Live(a) + Live(m) + Live(b) && Live(a + m' + b) == Live(a) + Live(m') + Live(b)
  {
    hide BlockTotal, Tiles, Headers, FreeAddrs, Live;
    RebuildHeaders(H, start, end, hdr, hdr', a, m, m', b, p, q);
    RebuildFree(H, start, end, a, m, m', b, p, q);
    LiveJoin(a + m, b);
    LiveJoin(a, m);
    LiveJoin(a + m', b);
    LiveJoin(a, m');
  }

  lemma RebuildHeaders(H: nat, start: nat, end: nat, hdr: map<nat, Header>, hdr': map<nat, Header>,
                       a: seq<Block>, m: seq<Block>, m': seq<Block>, b: seq<Block>, p: nat, q: nat)
    requires Tiles(H, a, start, p) && Tiles(H, m, p, q) && Tiles(H, m', p, q) && Tiles(H, b, q, end)
    requires Headers(hdr, a + m + b) && Headers(hdr', m')
    requires forall x :: x in hdr && !(p <= x < q) ==> x in hdr' && hdr'[x] == hdr[x]
    ensures Tiles(H, a + m' + b, start, end) && Headers(hdr', a + m' + b)
  {
    hide BlockTotal, Tiles, Headers;
    TilesJoin(H, a, m', start, p, q);
    TilesJoin(H, a + m', b, start, q, end);
    HeadersJoin(hdr, a + m, b);
    HeadersJoin(hdr, a, m);
    TilesUp(H, a, start, p);
    TilesUp(H, m, p, q);
    HeadersKept(H, hdr, hdr', a, start, p);
    HeadersKept(H, hdr, hdr', b, q, end);
    HeadersJoin(hdr', a, m');
    HeadersJoin(hdr', a + m', b);
  }

  lemma RebuildFree(H: nat, start: nat, end: nat, a: seq<Block>, m: seq<Block>, m': seq<Block>, b: seq<Block>, p: nat,
                    q: nat)
    requires Tiles(H, a, start, p) && Tiles(H, m, p, q) && Tiles(H, b, q, end)
    ensures FreeAddrs(H, a + m' + b) == FreeAddrs(H, a + m + b) - FreeAddrs(H, m) + FreeAddrs(H, m')
  {
    hide BlockTotal, Tiles, FreeAddrs;
    FreeJoin(H, a + m, b);
    FreeJoin(H, a, m);
    FreeJoin(H, a + m', b);
    FreeJoin(H, a, m');
    forall x | x in FreeAddrs(H, m) ensures x !in FreeAddrs(H, a) && x !in FreeAddrs(H, b) {
      Apart(H, a, m, b, start, p, q, end, x);
    }
    Sets(FreeAddrs(H, a), FreeAddrs(H, m), FreeAddrs(H, m'), FreeAddrs(H, b));
  }

  lemma Sets(a: set<nat>, m: set<nat>, m': set<nat>, b: set<nat>)
    requires forall x :: x in m ==> x !in a && x !in b
    ensures a + m' + b == a + m + b - m + m'
  {
  }

  lemma Apart(H: nat, a: seq<Block>, m: seq<Block>, b: seq<Block>, start: nat, p: nat, q: nat, end: nat, x: nat)
    requires Tiles(H, a, start, p) && Tiles(H, m, p, q) && Tiles(H, b, q, end) && x in FreeAddrs(H, m)
    ensures x !in FreeAddrs(H, a) && x !in FreeAddrs(H, b)
  {
    hide BlockTotal, Tiles, FreeAddrs;
    FreeInside(H, m, p, q, x);
    if x in FreeAddrs(H, a) {
      FreeInside(H, a, start, p, x);
    }
    if x in FreeAddrs(H, b) {
      FreeInside(H, b, q, end, x);
    }
  }
}
