/** The physical page allocator: a bitmap over one contiguous region, with a count of
    free pages and a hint where to look next. Live is its abstract value: the set of
    pages handed out and not yet given back. */
module FrameAllocator {

  import opened Units

  // ---------- bits ----------

  function Mask(k: nat): bv8
    requires k < 8
  {
    if k == 0 then 1 else if k == 1 then 2 else if k == 2 then 4 else if k == 3 then 8
    else if k == 4 then 16 else if k == 5 then 32 else if k == 6 then 64 else 128
  }

  /** bit_test */
  predicate Bit(bitmap: seq<bv8>, i: nat)
    requires i < 8 * |bitmap|
  {
    bitmap[i / 8] & Mask(i % 8) != 0
  }

  lemma MaskedWrites(b: bv8, j: nat, k: nat)
    requires j < 8 && k < 8
    ensures (b | Mask(j)) & Mask(k) != 0 <==> j == k || b & Mask(k) != 0
    ensures (b & !Mask(j)) & Mask(k) != 0 <==> j != k && b & Mask(k) != 0
  {
  }

  /** The pages of the region whose bit is set. */
  ghost function Marked(bitmap: seq<bv8>, total: nat): set<nat>
    requires total <= 8 * |bitmap|
  {
    set i: nat | i < total && Bit(bitmap, i)
  }

  /** The pages of a region of the given length. */
  ghost function Pages(total: nat): (s: set<nat>)
    ensures |s| == total
    ensures forall i: nat :: i in s <==> i < total
  {
    if total == 0 then {} else Pages(total - 1) + {total - 1}
  }

  /** bit_set on a byte. */
  function WithBit(b: bv8, k: nat, used: bool): bv8
    requires k < 8
  {
    if used then b | Mask(k) else b & !Mask(k)
  }

  lemma BitAfter(bitmap: seq<bv8>, i: nat, used: bool, n: nat)
    requires i < 8 * |bitmap| && n < 8 * |bitmap|
    ensures Bit(bitmap[i / 8 := WithBit(bitmap[i / 8], i % 8, used)], n) <==> if n == i then used else Bit(bitmap, n)
  {
    hide Mask, WithBit;
    ByteAfter(bitmap[i / 8], i % 8, used, n % 8);
  }

  lemma ByteAfter(b: bv8, j: nat, used: bool, k: nat)
    requires j < 8 && k < 8
    ensures WithBit(b, j, used) & Mask(k) != 0 <==> if j == k then used else b & Mask(k) != 0
  {
    MaskedWrites(b, j, k);
  }

  lemma MarkedAfter(bitmap: seq<bv8>, total: nat, i: nat, used: bool)
    requires total <= 8 * |bitmap| && i < total
    ensures Marked(bitmap[i / 8 := WithBit(bitmap[i / 8], i % 8, used)], total)
            == if used then Marked(bitmap, total) + {i} else Marked(bitmap, total) - {i}
  {
    hide Bit, WithBit;
    var after := bitmap[i / 8 := WithBit(bitmap[i / 8], i % 8, used)];
    forall n: nat
      ensures n in Marked(after, total) <==> n < total && if n == i then used else n in Marked(bitmap, total)
    {
      if n < total {
        BitAfter(bitmap, i, used, n);
      }
    }
  }

  lemma ZeroBitmap(bitmap: seq<bv8>, total: nat)
    requires total <= 8 * |bitmap| && forall j :: 0 <= j < |bitmap| ==> bitmap[j] == 0
    ensures Marked(bitmap, total) == {}
  {
    hide Mask;
    forall i: nat | i < total ensures !Bit(bitmap, i) {
      assert bitmap[i / 8] == 0;
    }
  }

  // ---------- what a search may return ----------

  /** i is the page palloc must choose: the first free page at or after the hint,
      or, when there is none, the first free page of the region. */
  ghost predicate NextFit(live: set<nat>, total: nat, hint: nat, i: nat) {
    && i < total && i !in live
    && (hint <= i ==> forall j :: hint <= j < i ==> j in live)
    && (i < hint ==> (forall j :: hint <= j < total ==> j in live) && (forall j :: 0 <= j < i ==> j in live))
  }

  /** The choice is unique. */
  lemma NextFitUnique(live: set<nat>, total: nat, hint: nat, i: nat, j: nat)
    requires NextFit(live, total, hint, i) && NextFit(live, total, hint, j)
    ensures i == j
  {
  }

  // ---------- the circular scan of palloc_n ----------

  /** The page looked at in step k of a scan starting at the hint. */
  function Visit(total: nat, hint: nat, k: nat): nat {
    if hint + k >= total then hint + k - total else hint + k
  }

  /** The length of the free run that step k ends. */
  ghost function RunLength(live: set<nat>, total: nat, hint: nat, k: nat): nat {
    if Visit(total, hint, k) in live then 0
    else if k == 0 then 1
    else 1 + RunLength(live, total, hint, k - 1)
  }

  /** Step k is the first to end a free run of n pages. */
  ghost predicate FirstRun(live: set<nat>, total: nat, hint: nat, n: nat, k: nat) {
    && k < total && RunLength(live, total, hint, k) >= n
    && forall j: nat :: j < k ==> RunLength(live, total, hint, j) < n
  }

  /** The page palloc_n reports as the start of the run that step k ends. */
  ghost function RunStart(total: nat, hint: nat, n: nat, k: nat): nat {
    if k + 1 < n then 0 else Visit(total, hint, k + 1 - n)
  }

  /** The run found wraps past the end of the region. */
  ghost predicate Straddles(live: set<nat>, total: nat, hint: nat, n: nat) {
    exists k :: FirstRun(live, total, hint, n, k) && RunStart(total, hint, n, k) + n > total
  }

  lemma {:induction false} RunFree(live: set<nat>, total: nat, hint: nat, k: nat, m: nat)
    requires 0 < m <= RunLength(live, total, hint, k)
    ensures m <= k + 1 && Visit(total, hint, k + 1 - m) !in live
  {
    if m > 1 {
      RunFree(live, total, hint, k - 1, m - 1);
    }
  }

  /** j is a free page of the region. */
  ghost predicate FreePage(live: set<nat>, total: nat, j: nat) { j < total && j !in live }

  /** The pages the caller is told it owns are free pages of the region exactly when the
      run does not wrap. */
  lemma RunIsOwned(live: set<nat>, total: nat, hint: nat, n: nat, k: nat)
    requires 0 < n && hint <= total && FirstRun(live, total, hint, n, k)
    ensures var s := RunStart(total, hint, n, k);
            (forall j: nat :: s <= j < s + n ==> FreePage(live, total, j)) <==> s + n <= total
  {
    var s := RunStart(total, hint, n, k);
    RunFree(live, total, hint, k, n);
    if s + n <= total {
      forall j: nat | s <= j < s + n ensures FreePage(live, total, j) {
        RunFree(live, total, hint, k, n - (j - s));
        assert Visit(total, hint, k + 1 - (n - (j - s))) == j;
      }
    } else {
      assert !FreePage(live, total, s + n - 1);
    }
  }

  // ---------- when a run straddles the end ----------

  ghost predicate FreeRange(live: set<nat>, a: nat, b: nat) { forall j: nat :: a <= j < b ==> j !in live }

  ghost predicate FreeRun(live: set<nat>, s: nat, n: nat) { FreeRange(live, s, s + n) }

  /** No n pages in a row are free between a and b. */
  ghost predicate NoRun(live: set<nat>, a: nat, b: nat, n: nat) {
    forall s: nat :: a <= s && s + n <= b ==> !FreeRun(live, s, n)
  }

  /** Between the hint and the end no n pages in a row are free, but the last t pages are and
      with them the first n - t. */
  ghost predicate WrapsAround(live: set<nat>, total: nat, hint: nat, n: nat) {
    && NoRun(live, hint, total, n)
    && exists t: nat :: 0 < t < n && t <= total - hint && n - t <= hint && FreeEnds(live, total, n, t)
  }

  ghost predicate FreeEnds(live: set<nat>, total: nat, n: nat, t: nat)
    requires t <= total && t <= n
  {
    FreeRange(live, total - t, total) && FreeRange(live, 0, n - t)
  }

  /** The pages that steps a to b of the scan visit are free. */
  ghost predicate VisitsFree(live: set<nat>, total: nat, hint: nat, a: nat, b: nat) {
    forall j: nat :: a <= j < b ==> Visit(total, hint, j) !in live
  }

  /** Step k ends a run of m pages exactly when the last m pages visited are free. */
  lemma {:induction false} RunLengthIs(live: set<nat>, total: nat, hint: nat, k: nat, m: nat)
    ensures RunLength(live, total, hint, k) >= m <==> m <= k + 1 && VisitsFree(live, total, hint, k + 1 - m, k + 1)
  {
    hide Visit;
    if 0 < m && 0 < k {
      RunLengthIs(live, total, hint, k - 1, m - 1);
    }
  }

  /** Seen from the scan, the pages of a run in front of the end and those behind the wrap. */
  lemma VisitsAhead(live: set<nat>, total: nat, hint: nat, u: nat, v: nat)
    requires hint <= u <= v <= total
    ensures VisitsFree(live, total, hint, u - hint, v - hint) <==> FreeRange(live, u, v)
  {
    if VisitsFree(live, total, hint, u - hint, v - hint) {
      forall j: nat | u <= j < v ensures j !in live {
        assert Visit(total, hint, j - hint) == j;
      }
    }
  }

  lemma VisitsBehind(live: set<nat>, total: nat, hint: nat, v: nat)
    requires hint <= total
    ensures VisitsFree(live, total, hint, total - hint, total - hint + v) <==> FreeRange(live, 0, v)
  {
    if VisitsFree(live, total, hint, total - hint, total - hint + v) {
      forall j: nat | j < v ensures j !in live {
        assert Visit(total, hint, total - hint + j) == j;
      }
    }
  }

  lemma VisitsSplit(live: set<nat>, total: nat, hint: nat, a: nat, b: nat, c: nat)
    requires a <= b <= c
    ensures VisitsFree(live, total, hint, a, c) <==>
            VisitsFree(live, total, hint, a, b) && VisitsFree(live, total, hint, b, c)
  {
    hide Visit;
  }

  /** palloc_n straddles the end exactly when the free pages wrap around it. */
  lemma StraddlesWhen(live: set<nat>, total: nat, hint: nat, n: nat)
    requires 0 < n && hint <= total
    ensures Straddles(live, total, hint, n) <==> WrapsAround(live, total, hint, n)
  {
    hide FirstRun, RunStart, NoRun, FreeEnds;
    if Straddles(live, total, hint, n) {
      var k :| FirstRun(live, total, hint, n, k) && RunStart(total, hint, n, k) + n > total;
      StraddleWraps(live, total, hint, n, k);
    }
    if WrapsAround(live, total, hint, n) {
      var t :| 0 < t < n && t <= total - hint && n - t <= hint && FreeEnds(live, total, n, t);
      WrapStraddles(live, total, hint, n, t);
    }
  }

  lemma StraddleWraps(live: set<nat>, total: nat, hint: nat, n: nat, k: nat)
    requires 0 < n && hint <= total && FirstRun(live, total, hint, n, k) && RunStart(total, hint, n, k) + n > total
    ensures WrapsAround(live, total, hint, n)
  {
    RunLengthIs(live, total, hint, k, n);
    hide RunLength, VisitsFree, FreeRange;
    var s := hint + k + 1 - n;
    assert hint <= s < total < s + n;
    var t := total - s;
    VisitsSplit(live, total, hint, k + 1 - n, total - hint, k + 1);
    VisitsAhead(live, total, hint, s, total);
    VisitsBehind(live, total, hint, n - t);
    NoRunBefore(live, total, hint, n, k);
    assert FreeEnds(live, total, n, t);
  }

  /** Before the first run ends, and so in front of the end of the region, there is none. */
  lemma NoRunBefore(live: set<nat>, total: nat, hint: nat, n: nat, k: nat)
    requires 0 < n && hint <= total && FirstRun(live, total, hint, n, k) && hint + k + 1 > total
    ensures NoRun(live, hint, total, n)
  {
    hide RunLength, VisitsFree, FreeRange;
    forall u: nat | hint <= u && u + n <= total ensures !FreeRun(live, u, n) {
      var j := u + n - 1 - hint;
      RunLengthIs(live, total, hint, j, n);
      VisitsAhead(live, total, hint, u, u + n);
    }
  }

  lemma NoRunAt(live: set<nat>, a: nat, b: nat, n: nat, u: nat)
    requires NoRun(live, a, b, n) && a <= u && u + n <= b
    ensures !FreeRange(live, u, u + n)
  {
    hide FreeRange;
    assert !FreeRun(live, u, n);
  }

  lemma WrapStraddles(live: set<nat>, total: nat, hint: nat, n: nat, t: nat)
    requires hint <= total && 0 < t < n && t <= total - hint && n - t <= hint
    requires FreeEnds(live, total, n, t) && NoRun(live, hint, total, n)
    ensures Straddles(live, total, hint, n)
  {
    hide RunLength, VisitsFree, FreeRange;
    var last := total - hint + n - t - 1;
    RunLengthIs(live, total, hint, last, n);
    VisitsSplit(live, total, hint, last + 1 - n, total - hint, last + 1);
    VisitsAhead(live, total, hint, total - t, total);
    VisitsBehind(live, total, hint, n - t);
    var k := FirstAtMost(live, total, hint, n, last);
    RunLengthIs(live, total, hint, k, n);
    if hint + k + 1 <= total {
      VisitsAhead(live, total, hint, hint + k + 1 - n, hint + k + 1);
      NoRunAt(live, hint, total, n, hint + k + 1 - n);
    }
    assert RunStart(total, hint, n, k) + n > total;
  }

  lemma {:induction false} FirstAtMost(live: set<nat>, total: nat, hint: nat, n: nat, k: nat) returns (first: nat)
    requires k < total && RunLength(live, total, hint, k) >= n
    ensures first <= k && FirstRun(live, total, hint, n, first)
  {
    hide RunLength;
    if j: nat :| j < k && RunLength(live, total, hint, j) >= n {
      first := FirstAtMost(live, total, hint, n, j);
    } else {
      first := k;
    }
  }

  lemma FirstRunUnique(live: set<nat>, total: nat, hint: nat, n: nat, j: nat, k: nat)
    requires FirstRun(live, total, hint, n, j) && FirstRun(live, total, hint, n, k)
    ensures j == k
  {
    hide RunLength;
  }

  /** The pages [start, start + n). */
  ghost function Span(start: nat, n: nat): (s: set<nat>)
    ensures forall j: nat :: j in s <==> start <= j < start + n
    ensures |s| == n
  {
    if n == 0 then {} else Span(start, n - 1) + {start + n - 1}
  }

  lemma SpanGrows(start: nat, n: nat)
    ensures Span(start, 0) == {}
    ensures Span(start, n + 1) == Span(start, n) + {start + n}
  {
  }

  lemma SpanApart(live: set<nat>, total: nat, start: nat, n: nat)
    requires forall j: nat :: start <= j < start + n ==> FreePage(live, total, j)
    ensures Span(start, n) !! live
  {
    forall j: nat | j in Span(start, n) ensures j !in live {
      assert FreePage(live, total, j);
    }
  }

  /** The first i pages of a run have been added to those in use. */
  ghost predicate Claimed(live: set<nat>, now: set<nat>, start: nat, i: nat) { now == live + Span(start, i) }

  lemma NotYetTaken(live: set<nat>, now: set<nat>, total: nat, start: nat, n: nat, i: nat)
    requires i < n && forall j: nat :: start <= j < start + n ==> FreePage(live, total, j)
    requires Claimed(live, now, start, i)
    ensures start + i !in now && start + i < total
    ensures Claimed(live, now + {start + i}, start, i + 1)
  {
    assert FreePage(live, total, start + i);
    SpanStep(live, start, i);
  }

  lemma ClaimedEnds(live: set<nat>, now: set<nat>, start: nat, n: nat)
    ensures Claimed(live, now, start, n) ==> now == live + Span(start, n)
    ensures Claimed(live, live, start, 0)
  {
    SpanStep(live, start, 0);
  }

  lemma SpanStep(live: set<nat>, start: nat, n: nat)
    ensures live + Span(start, n) + {start + n} == live + Span(start, n + 1)
    ensures live + Span(start, 0) == live
  {
    SpanGrows(start, n);
  }

  // ---------- whole runs ----------

  datatype Event = Alloc(page: nat) | Release(page: nat)

  datatype Replay = Wrong | Live(pages: set<nat>)

  /** Replays a log on a set of live pages; handing out a live page is wrong. */
  ghost function Replayed(live: set<nat>, log: seq<Event>): Replay {
    if log == [] then Live(live)
    else
      match Replayed(live, log[..|log| - 1])
      case Wrong => Wrong
      case Live(s) =>
        match log[|log| - 1]
        case Alloc(i) => if i in s then Wrong else Live(s + {i})
        case Release(i) => Live(s - {i})
  }

  datatype Call = Palloc | PallocN(n: nat) | Pfree(phys: nat)

  function AtLeastOne(n: nat): nat { if n == 0 then 1 else n }

  /** The log of n consecutive pages handed out. */
  function Allocs(s: nat, n: nat): seq<Event> {
    if n == 0 then [] else Allocs(s, n - 1) + [Alloc(s + n - 1)]
  }

  lemma ReplayNothing(live: set<nat>)
    ensures Replayed(live, []) == Replay.Live(live)
  {
  }

  lemma ReplayOne(live: set<nat>, e: Event)
    requires e.Alloc? ==> e.page !in live
    ensures Replayed(live, [e]) == Replay.Live(if e.Alloc? then live + {e.page} else live - {e.page})
  {
    assert [e][..0] == [];
    assert Replayed(live, []) == Replay.Live(live);
  }

  lemma {:induction false} ReplayMore(live: set<nat>, log: seq<Event>, mid: set<nat>, more: seq<Event>)
    requires Replayed(live, log) == Replay.Live(mid)
    ensures Replayed(live, log + more) == Replayed(mid, more)
  {
    if more == [] {
      assert log + more == log;
    } else {
      var n := |more| - 1;
      ReplayMore(live, log, mid, more[..n]);
      assert (log + more)[..|log| + n] == log + more[..n];
    }
  }

  lemma {:induction false} ReplaySpan(live: set<nat>, s: nat, n: nat)
    requires Span(s, n) !! live
    ensures Replayed(live, Allocs(s, n)) == Replay.Live(live + Span(s, n))
  {
    hide Span, Replayed;
    SpanEdge(live, s, n);
    if n == 0 {
      ReplayNothing(live);
    } else {
      var mid := live + Span(s, n - 1);
      ReplaySpan(live, s, n - 1);
      ReplayMore(live, Allocs(s, n - 1), mid, [Alloc(s + n - 1)]);
      ReplayOne(mid, Alloc(s + n - 1));
    }
  }

  lemma SpanEdge(live: set<nat>, s: nat, n: nat)
    requires Span(s, n) !! live
    ensures n == 0 ==> live + Span(s, n) == live
    ensures n > 0 ==> Span(s, n - 1) !! live && s + n - 1 !in live + Span(s, n - 1)
    ensures n > 0 ==> live + Span(s, n) == live + Span(s, n - 1) + {s + n - 1}
  {
    if n > 0 {
      SpanGrows(s, n - 1);
    }
  }

  /** The pages the bitmap itself takes: the fewest with a bit for every page. */
  function BitmapPages(pages: nat): (b: nat)
    ensures 32768 * b >= pages && (b > 0 ==> 32768 * (b - 1) < pages)
  {
    ((pages + 7) / 8 + PAGE_SIZE - 1) / PAGE_SIZE
  }

  lemma BitmapFits(pages: nat)
    requires 0 < pages
    ensures BitmapPages(pages) <= pages && pages <= 8 * ((pages + 7) / 8)
  {
  }

  class PhysAllocator {
    var bitmap: array?<bv8>
    var physStart: nat
    var totalPages: nat
    var freePages: nat
    var firstPage: nat

    /** The allocator before init has found a region. */
    constructor ()
      ensures Valid() && Live() == {} && bitmap == null
    {
      bitmap, physStart, totalPages, freePages, firstPage := null, 0, 0, 0, 0;
    }

    /** init: pages is the length of the largest conventional region, start its address.
        The bitmap takes the first pages of the region. */
    constructor Init(start: nat, pages: nat)
      requires 0 < start && start % PAGE_SIZE == 0 && 0 < pages
      ensures Valid() && Live() == {} && bitmap != null && fresh(bitmap)
      ensures totalPages == pages - BitmapPages(pages) && firstPage == 0
      ensures physStart == start + BitmapPages(pages) * PAGE_SIZE
    {
      var bitmapBytes := (pages + 7) / 8;
      var bitmapPages := BitmapPages(pages);
      BitmapFits(pages);
      bitmap := new bv8[bitmapBytes](_ => 0);
      physStart := start + bitmapPages * PAGE_SIZE;
      totalPages, freePages, firstPage := pages - bitmapPages, pages - bitmapPages, 0;
      new;
      hide Bit, BitmapPages;
      ZeroBitmap(bitmap[..], totalPages);
    }

    ghost predicate Valid()
      reads this, bitmap
    {
      && (bitmap == null ==> totalPages == 0)
      && (bitmap != null ==> totalPages <= 8 * bitmap.Length && 0 < physStart)
      && physStart % PAGE_SIZE == 0
      && freePages + |Live()| == totalPages
      && firstPage <= totalPages
    }

    /** The pages handed out. */
    ghost function Live(): set<nat>
      reads this, bitmap
    {
      if bitmap == null || totalPages > 8 * bitmap.Length then {} else Marked(bitmap[..], totalPages)
    }

    function AddressOf(i: nat): nat
      reads this`physStart
    {
      physStart + i * PAGE_SIZE
    }

    lemma LiveBounded()
      requires Valid()
      ensures Live() <= Pages(totalPages)
      ensures freePages == 0 <==> Live() == Pages(totalPages)
    {
      if freePages == 0 {
        Subset(Live(), Pages(totalPages));
      }
    }

    lemma SomeFree() returns (f: nat)
      requires Valid() && freePages != 0
      ensures f < totalPages && f !in Live()
    {
      LiveBounded();
      assert Pages(totalPages) == Live() + (Pages(totalPages) - Live());
      f :| f in Pages(totalPages) - Live();
    }

    method TestBit(i: nat) returns (used: bool)
      requires bitmap != null && totalPages <= 8 * bitmap.Length && i < totalPages
      ensures used <==> i in Live()
    {
      used := bitmap[i / 8] & Mask(i % 8) != 0;
      assert used <==> Bit(bitmap[..], i);
    }

    method SetBit(i: nat, used: bool)
      requires bitmap != null && totalPages <= 8 * bitmap.Length && i < totalPages
      modifies bitmap
      ensures Live() == if used then old(Live()) + {i} else old(Live()) - {i}
    {
      hide Bit, Mask, WithBit;
      ghost var before := bitmap[..];
      bitmap[i / 8] := WithBit(bitmap[i / 8], i % 8, used);
      assert bitmap[..] == before[i / 8 := WithBit(before[i / 8], i % 8, used)];
      MarkedAfter(before, totalPages, i, used);
    }

    /** One scanning loop: the first free page of [from, to), or to. */
    method Scan(from: nat, to: nat) returns (i: nat)
      requires bitmap != null && totalPages <= 8 * bitmap.Length && from <= to <= totalPages
      ensures from <= i <= to
      ensures forall j :: from <= j < i ==> j in Live()
      ensures i < to ==> i !in Live()
    {
      i := from;
      while i < to
        invariant from <= i <= to
        invariant forall j :: from <= j < i ==> j in Live()
      {
        var used := TestBit(i);
        if !used {
          return;
        }
        i := i + 1;
      }
    }

    /** Claims a free page; the hint is left to the caller. */
    method Take(i: nat)
      requires Valid() && bitmap != null && i < totalPages && i !in Live()
      modifies this`freePages, bitmap
      ensures Valid() && Live() == old(Live()) + {i} && freePages == old(freePages) - 1
    {
      LiveBounded();
      SetBit(i, true);
      freePages := freePages - 1;
    }

    method Palloc() returns (phys: nat)
      requires Valid()
      modifies this`freePages, this`firstPage, bitmap
      ensures Valid()
      ensures phys == 0 <==> old(Live()) == Pages(totalPages)
      ensures phys == 0 <==> old(freePages) == 0
      ensures phys == 0 ==> freePages == old(freePages)
      ensures phys == 0 ==> Live() == old(Live())
      ensures phys != 0 ==> freePages == old(freePages) - 1
      ensures phys != 0 ==>
                && physStart <= phys && phys == AddressOf(PageAt(phys))
                && NextFit(old(Live()), totalPages, old(firstPage), PageAt(phys))
                && Live() == old(Live()) + {PageAt(phys)}
    {
      hide Marked, PageAt, Pages;
      phys := 0;
      LiveBounded();
      if freePages == 0 || bitmap == null {
        return;
      }
      ghost var f := SomeFree();
      var i := Scan(firstPage, totalPages);
      if i < totalPages {
        Take(i);
        firstPage := i + 1;
        phys := AddressOf(i);
        PageAtAddress(i);
        return;
      }
      i := Scan(0, firstPage);
      if i < firstPage {
        Take(i);
        phys := AddressOf(i);
        PageAtAddress(i);
      }
    }

    /** The page an address at or above the region's start falls in. */
    function PageAt(phys: nat): nat
      requires physStart <= phys
      reads this`physStart
    {
      (phys - physStart) / PAGE_SIZE
    }

    /** The scanning loop of palloc_n. */
    method FindRun(n: nat) returns (found: bool, runStart: nat, ghost k: nat)
      requires Valid() && bitmap != null && 0 < n
      ensures found ==>
              FirstRun(Live(), totalPages, firstPage, n, k) &&
              runStart == RunStart(totalPages, firstPage, n, k)
      ensures !found ==> forall j :: !FirstRun(Live(), totalPages, firstPage, n, j)
    {
      hide Marked;
      var runLen, m := 0, 0;
      found, runStart, k := false, firstPage, 0;
      while m < totalPages
        invariant 0 <= m <= totalPages && runLen < n
        invariant runLen == if m == 0 then 0 else RunLength(Live(), totalPages, firstPage, m - 1)
        invariant runLen > 0 ==> runLen <= m && runStart == Visit(totalPages, firstPage, m - runLen)
        invariant forall j: nat :: j < m ==> RunLength(Live(), totalPages, firstPage, j) < n
      {
        var i := firstPage + m;
        var idx := if i >= totalPages then i - totalPages else i;
        var used := TestBit(idx);
        if !used {
          if runLen == 0 {
            runStart := idx;
          }
          runLen := runLen + 1;
          if runLen >= n {
            found, k := true, m;
            return;
          }
        } else {
          runLen := 0;
        }
        m := m + 1;
      }
    }

    /** palloc_n for a run that does not wrap past the end of the region. Asked for no page it
        looks for one, takes none and answers with the address of that free page. */
    method PallocN(n: nat) returns (phys: nat)
      requires Valid() && !Straddles(Live(), totalPages, firstPage, AtLeastOne(n))
      modifies this`freePages, this`firstPage, bitmap
      ensures Valid()
      ensures phys == 0 ==>
                && Live() == old(Live()) && firstPage == old(firstPage)
                && forall k :: !FirstRun(old(Live()), totalPages, old(firstPage), AtLeastOne(n), k)
      ensures phys != 0 ==>
                exists k :: FirstRun(old(Live()), totalPages, old(firstPage), AtLeastOne(n), k) &&
                  var s := RunStart(totalPages, old(firstPage), AtLeastOne(n), k);
                  && phys == AddressOf(s) && s + n <= totalPages && Span(s, n) !! old(Live())
                  && Live() == old(Live()) + Span(s, n) && firstPage == s + n
    {
      hide Marked, Pages, Span, FirstRun, RunStart;
      if freePages < n || bitmap == null {
        FewPages(n);
        return 0;
      }
      var found, runStart;
      ghost var k;
      found, runStart, k := FindRun(AtLeastOne(n));
      if !found {
        return 0;
      }
      RunIsOwned(Live(), totalPages, firstPage, AtLeastOne(n), k);
      ClaimRun(runStart, n);
      firstPage := runStart + n;
      phys := AddressOf(runStart);
    }

    /** Whether the run that palloc_n would take straddles the end. */
    method WouldStraddle(n: nat) returns (b: bool)
      requires Valid()
      ensures b <==> Straddles(Live(), totalPages, firstPage, AtLeastOne(n))
    {
      hide Marked, FirstRun, RunStart;
      if bitmap == null {
        NoPages(n);
        return false;
      }
      var found, runStart;
      ghost var k;
      found, runStart, k := FindRun(AtLeastOne(n));
      b := found && runStart + AtLeastOne(n) > totalPages;
      if found {
        forall j | FirstRun(Live(), totalPages, firstPage, AtLeastOne(n), j) ensures j == k {
          FirstRunUnique(Live(), totalPages, firstPage, AtLeastOne(n), j, k);
        }
      }
    }

    lemma NoPages(n: nat)
      requires Valid() && bitmap == null
      ensures !Straddles(Live(), totalPages, firstPage, AtLeastOne(n))
    {
      hide RunLength, RunStart;
    }

    lemma FewPages(n: nat)
      requires Valid() && (freePages < n || bitmap == null)
      requires !Straddles(Live(), totalPages, firstPage, AtLeastOne(n))
      ensures forall k :: !FirstRun(Live(), totalPages, firstPage, AtLeastOne(n), k)
    {
      hide Marked, RunLength;
      var m := AtLeastOne(n);
      forall k ensures !FirstRun(Live(), totalPages, firstPage, m, k) {
        if FirstRun(Live(), totalPages, firstPage, m, k) {
          RunIsOwned(Live(), totalPages, firstPage, m, k);
          RunFits(RunStart(totalPages, firstPage, m, k), m);
        }
      }
    }

    /** A free run is no longer than the count of free pages. */
    lemma RunFits(s: nat, n: nat)
      requires Valid() && s + n <= totalPages && forall j: nat :: s <= j < s + n ==> FreePage(Live(), totalPages, j)
      ensures n <= freePages
    {
      hide Marked;
      LiveBounded();
      assert forall j: nat :: j in Span(s, n) ==> FreePage(Live(), totalPages, j);
      assert Span(s, n) + Live() <= Pages(totalPages);
      assert Span(s, n) !! Live();
      SubsetSize(Span(s, n) + Live(), Pages(totalPages));
    }

    /** The loop that marks the run. */
    method ClaimRun(start: nat, n: nat)
      requires Valid() && bitmap != null && start + n <= totalPages
      requires forall j: nat :: start <= j < start + n ==> FreePage(Live(), totalPages, j)
      modifies this`freePages, bitmap
      ensures Valid() && Live() == old(Live()) + Span(start, n) && freePages == old(freePages) - n
      ensures Span(start, n) !! old(Live())
    {
      hide Live, Valid, Span, FreePage, Claimed;
      ghost var live := Live();
      SpanApart(live, totalPages, start, n);
      ClaimedEnds(live, live, start, 0);
      var j := start;
      while j < start + n
        invariant start <= j <= start + n && Valid()
        invariant Claimed(live, Live(), start, j - start)
        invariant freePages == old(freePages) - (j - start)
      {
        NotYetTaken(live, Live(), totalPages, start, n, j - start);
        Take(j);
        j := j + 1;
      }
      ClaimedEnds(live, Live(), start, n);
    }

    /** Any run of palloc, palloc_n and pfree in which no run of pages straddles the end: no page
        is handed out twice without a pfree between, and the log replayed on the initial live
        set gives the final one. */
    method Run(calls: seq<Call>) returns (log: seq<Event>)
      requires Valid()
      modifies this`freePages, this`firstPage, bitmap
      ensures Valid() && Replayed(old(Live()), log) == Replay.Live(Live())
    {
      hide Marked, Pages, NextFit, Replayed;
      log := [];
      ReplayNothing(Live());
      for k := 0 to |calls|
        invariant Valid() && Replayed(old(Live()), log) == Replay.Live(Live())
      {
        ghost var live := Live();
        var e := Step(calls[k]);
        ReplayMore(old(Live()), log, live, e);
        log := log + e;
      }
    }

    /** One call, logged page by page; a straddling run is not asked for. */
    method Step(c: Call) returns (e: seq<Event>)
      requires Valid()
      modifies this`freePages, this`firstPage, bitmap
      ensures Valid() && Replayed(old(Live()), e) == Replay.Live(Live())
    {
      hide Marked, Pages, FirstRun, RunStart, Straddles, Span, Replayed;
      e := [];
      ReplayNothing(Live());
      match c
      case Palloc =>
        var phys := Palloc();
        if phys != 0 {
          e := [Alloc(PageAt(phys))];
          ReplayOne(old(Live()), e[0]);
        }
      case PallocN(n) =>
        var b := WouldStraddle(n);
        if !b {
          var phys := PallocN(n);
          if phys != 0 {
            ghost var k :| FirstRun(old(Live()), totalPages, old(firstPage), AtLeastOne(n), k) &&
                           phys == AddressOf(RunStart(totalPages, old(firstPage), AtLeastOne(n), k)) &&
                           Span(RunStart(totalPages, old(firstPage), AtLeastOne(n), k), n) !! old(Live()) &&
                           Live() == old(Live()) + Span(RunStart(totalPages, old(firstPage), AtLeastOne(n), k), n);
            PageAtAddress(RunStart(totalPages, old(firstPage), AtLeastOne(n), k));
            e := Allocs(PageAt(phys), n);
            ReplaySpan(old(Live()), PageAt(phys), n);
          }
        }
      case Pfree(phys) =>
        Pfree(phys);
        if phys >= physStart {
          e := [Release(PageAt(phys))];
          ReplayOne(old(Live()), e[0]);
        }
    }

    lemma PageAtAddress(i: nat)
      ensures physStart <= AddressOf(i) && PageAt(AddressOf(i)) == i
    {
    }

    method Pfree(phys: nat)
      requires Valid()
      modifies this`freePages, this`firstPage, bitmap
      ensures Valid()
      ensures Live() == if phys < physStart then old(Live()) else old(Live()) - {PageAt(phys)}
      ensures phys < physStart || PageAt(phys) !in old(Live()) ==>
                freePages == old(freePages) && firstPage == old(firstPage)
      ensures phys >= physStart && PageAt(phys) in old(Live()) ==>
                freePages == old(freePages) + 1 &&
                firstPage == if PageAt(phys) < old(firstPage) then PageAt(phys) else old(firstPage)
    {
      if phys < physStart {
        return;
      }
      var page := PageAt(phys);
      if page >= totalPages || bitmap == null {
        return;
      }
      var used := TestBit(page);
      if !used {
        return;
      }
      SetBit(page, false);
      freePages := freePages + 1;
      if page < firstPage {
        firstPage := page;
      }
    }
  }

  lemma Subset(a: set<nat>, b: set<nat>)
    requires a <= b && |a| == |b|
    ensures a == b
  {
    assert b == a + (b - a);
    assert |b| == |a| + |b - a|;
  }

  lemma SubsetSize(a: set<nat>, b: set<nat>)
    requires a <= b
    ensures |a| <= |b|
  {
    assert b == a + (b - a);
  }

  // ---------- a straddling call that a run reaches ----------

  lemma FirstRunAt(live: set<nat>, hint: nat, k: nat)
    requires (live == {} && hint == 0 && k == 1) || (live == {1} && hint == 0 && k == 3)
    ensures FirstRun(live, 4, hint, 2, k) && RunStart(4, hint, 2, k) == k - 1 && !Straddles(live, 4, hint, 2)
  {
    assert RunLength(live, 4, hint, 0) == 1;
    assert RunLength(live, 4, hint, 1) == if live == {} then 2 else 0;
    if live == {1} {
      assert RunLength(live, 4, hint, 2) == 1;
      assert RunLength(live, 4, hint, 3) == 2;
    }
    StraddlesWhen(live, 4, hint, 2);
  }

  lemma WrapsAtThree()
    ensures Straddles({1, 2}, 4, 3, 2)
  {
    StraddlesWhen({1, 2}, 4, 3, 2);
    assert FreeEnds({1, 2}, 4, 2, 1);
  }

  /** palloc_n(2) where step k ends the first run. */
  method TakeTwo(a: PhysAllocator, ghost k: nat)
    requires a.Valid() && a.totalPages == 4 && k > 0
    requires FirstRun(a.Live(), 4, a.firstPage, 2, k) && RunStart(4, a.firstPage, 2, k) == k - 1
    requires !Straddles(a.Live(), 4, a.firstPage, 2)
    modifies a`freePages, a`firstPage, a.bitmap
    ensures a.Valid() && a.Live() == old(a.Live()) + {k - 1, k} && a.firstPage == k + 1
  {
    hide Marked, FirstRun, RunStart, Straddles, a.Live, a.Valid;
    ghost var live, hint := a.Live(), a.firstPage;
    var n := 2;
    assert FirstRun(live, a.totalPages, hint, AtLeastOne(n), k);
    var p := a.PallocN(n);
    ghost var j :| FirstRun(live, a.totalPages, hint, AtLeastOne(n), j) &&
                   a.Live() == live + Span(RunStart(a.totalPages, hint, AtLeastOne(n), j), n) &&
                   a.firstPage == RunStart(a.totalPages, hint, AtLeastOne(n), j) + n;
    FirstRunUnique(live, 4, hint, 2, j, k);
    TwoPages(k - 1);
    assert RunStart(4, hint, 2, j) == k - 1;
    assert a.Live() == live + {k - 1, k - 1 + 1};
  }

  lemma TwoPages(s: nat)
    ensures Span(s, 2) == {s, s + 1}
  {
    SpanGrows(s, 0);
    SpanGrows(s, 1);
  }

  /** On a region of four pages: two pages, the first of them back, two more, the last of those
      back. The next palloc_n(2) then counts page 3 and page 0 as one run and reports the pages 3
      and 4, and there is no page 4. */
  method StraddleRun() returns (a: PhysAllocator)
    ensures fresh(a) && a.Valid() && a.totalPages == 4
    ensures Straddles(a.Live(), a.totalPages, a.firstPage, 2)
  {
    hide Marked, FirstRun, RunStart, Straddles;
    a := new PhysAllocator.Init(0x1000, 5);
    FirstRunAt({}, 0, 1);
    TakeTwo(a, 1);
    assert a.Live() == {0, 1};
    a.PageAtAddress(0);
    a.Pfree(a.AddressOf(0));
    assert a.Live() == {1};
    FirstRunAt({1}, 0, 3);
    TakeTwo(a, 3);
    assert a.Live() == {1, 2, 3};
    a.PageAtAddress(3);
    a.Pfree(a.AddressOf(3));
    assert a.Live() == {1, 2};
    WrapsAtThree();
  }
}
