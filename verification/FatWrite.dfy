/** What a chain write has done so far: the file has grown by free clusters, its bytes are the
    old ones with a run overwritten, and nothing outside the file has changed. */
module FatWrite {
  import opened Units
  import opened FatTable
  import opened FatChain
  import opened FatBytes

  /** b' is b with x put at offset. */
  ghost predicate Wrote(b: seq<Octet>, b': seq<Octet>, offset: nat, x: seq<Octet>) {
    if x == [] then b' == b else offset + |x| <= |b| && b' == Overwrite(b, offset, x)
  }

  lemma WroteMore(b: seq<Octet>, b': seq<Octet>, offset: nat, x: seq<Octet>, y: seq<Octet>)
    requires Wrote(b, b', offset, x) && offset + |x| + |y| <= |b'|
    ensures Wrote(b, Overwrite(b', offset + |x|, y), offset, x + y)
  {
    if x == [] {
      assert x + y == y;
      if y == [] {
        assert Overwrite(b', offset, y) == b';
      }
    } else {
      OverwriteTwice(b, offset, x, y);
    }
  }

  lemma WroteLonger(b: seq<Octet>, b': seq<Octet>, offset: nat, x: seq<Octet>, tail: seq<Octet>)
    requires Wrote(b, b', offset, x)
    ensures Wrote(b + tail, b' + tail, offset, x)
  {
  }

  ghost predicate Sound(g: Geometry, d: seq<Sector>) {
    Proper(g) && Room(g, d) && |d| >= g.dataStart
  }

  ghost predicate OthersKept(g: Geometry, d0: seq<Sector>, d: seq<Sector>, l: seq<nat>)
    requires Sound(g, d0) && Sound(g, d)
  {
    forall c :: InRange(g, c) && c !in l ==> Data(g, d, c) == Data(g, d0, c)
  }

  ghost predicate Copies(g: Geometry, d0: seq<Sector>, d: seq<Sector>)
    requires Sound(g, d0) && Sound(g, d)
  {
    CopiesAgree(g, d0) ==> CopiesAgree(g, d)
  }

  /** Every entry of a cluster below n lies inside one sector: always so for the wider tables,
      up to cluster 340 for twelve-bit ones. */
  ghost predicate PlainBelow(k: Kind, n: nat) { forall c :: 0 <= c < n ==> InOneSector(k, c) }

  lemma PlainBelowIs(k: Kind, n: nat)
    ensures PlainBelow(k, n) <==> k != Fat12 || n <= 341
  {
    hide InOneSector;
    forall c: nat ensures !InOneSector(k, c) <==> k == Fat12 && (c % 1024 == 341 || c % 1024 == 682) {
      Straddles(k, c);
    }
    if k == Fat12 && n > 341 {
      assert !InOneSector(k, 341);
    }
  }

  /** The free clusters that a scan from the bottom reaches without meeting a straddling entry. */
  ghost function Usable(k: Kind, t: seq<nat>): set<nat> { set c | c in FreeClusters(t) && PlainBelow(k, c + 1) }

  /** The scan for a free cluster ends inside the table. */
  ghost predicate ScanSafe(k: Kind, t: seq<nat>) {
    Usable(k, t) != {} || (|t| == Limit(k) && PlainBelow(k, |t|))
  }

  /** The first free cluster is usable wherever the scan is safe. */
  lemma FirstUsable(k: Kind, t: seq<nat>, nc: nat)
    requires ScanSafe(k, t) && 2 <= nc < |t| && t[nc] == 0 && forall c :: 2 <= c < nc ==> t[c] != 0
    ensures nc in Usable(k, t)
  {
    hide InOneSector;
    if Usable(k, t) != {} {
      var f :| f in Usable(k, t);
      assert f in FreeClusters(t) && nc <= f;
      assert PlainBelow(k, f + 1);
    }
    assert PlainBelow(k, nc + 1) && nc in FreeClusters(t);
  }

  ghost function Spare(g: Geometry, d: seq<Sector>): nat
    requires Sound(g, d)
  {
    |Usable(g.kind, Table(g, d))|
  }

  /** The state of a write that started on disk d0 with the chain l0 of cluster first, has put
      x at offset, and has reached disk d and chain l. */
  ghost predicate Good(g: Geometry, d0: seq<Sector>, d: seq<Sector>, first: nat, l0: seq<nat>, l: seq<nat>, offset: nat,
                       x: seq<Octet>) {
    && Sound(g, d0) && Sound(g, d) && AllInRange(g, l) && Plain(g.kind, l)
    && Chain(g.kind, Table(g, d), first, l)
    && Grew(Table(g, d0), Table(g, d), l0, l)
    && Spare(g, d) + |l| == Spare(g, d0) + |l0|
    && Copies(g, d0, d) && OthersKept(g, d0, d, l)
    && Wrote(FileBytes(g, d0, l), FileBytes(g, d, l), offset, x)
  }

  lemma ChainInRange(g: Geometry, d: seq<Sector>, first: nat, l: seq<nat>)
    requires Sound(g, d) && Chain(g.kind, Table(g, d), first, l)
    ensures AllInRange(g, l)
  {
    hide Chain, Table, IsEnd;
    ChainInside(g.kind, Table(g, d), first, l);
  }

  lemma GoodStart(g: Geometry, d: seq<Sector>, first: nat, l: seq<nat>, offset: nat)
    requires Sound(g, d) && Chain(g.kind, Table(g, d), first, l) && Plain(g.kind, l)
    ensures Good(g, d, d, first, l, l, offset, [])
  {
    hide Chain, Table, Data, FileBytes;
    ChainInRange(g, d, first, l);
  }

  // ---------- a new cluster ----------

  lemma UsableAfterAppend(k: Kind, t: seq<nat>, last: nat, nc: nat)
    requires last < |t| && nc in Usable(k, t) && t[last] != 0 && last != nc
    ensures var spare := Usable(k, Appended(k, t, last, nc));
            spare == Usable(k, t) - {nc} && |spare| + 1 == |Usable(k, t)|
  {
    hide PlainBelow;
    var t' := Appended(k, t, last, nc);
    assert FreeClusters(t') == FreeClusters(t) - {nc};
    assert Usable(k, t') == Usable(k, t) - {nc};
  }

  lemma GrewByOne(k: Kind, t0: seq<nat>, t: seq<nat>, l0: seq<nat>, l: seq<nat>, nc: nat)
    requires Grew(t0, t, l0, l) && l != [] && l[|l| - 1] < |t| && 2 <= nc < |t| && t[nc] == 0 && nc !in l
    ensures Grew(t0, Appended(k, t, l[|l| - 1], nc), l0, l + [nc])
  {
    var t' := Appended(k, t, l[|l| - 1], nc);
    var l' := l + [nc];
    forall c | 0 <= c < |t| && c !in l' ensures t'[c] == t0[c] {
      assert c !in l && c != nc;
      assert l[|l| - 1] in l;
    }
  }

  lemma BytesByOne(g: Geometry, d0: seq<Sector>, d: seq<Sector>, d': seq<Sector>, l: seq<nat>, nc: nat, offset: nat,
                   x: seq<Octet>)
    requires Sound(g, d0) && Sound(g, d) && Sound(g, d') && AllInRange(g, l) && InRange(g, nc) && nc !in l
    requires d'[g.dataStart..] == d[g.dataStart..] && OthersKept(g, d0, d, l)
    requires Wrote(FileBytes(g, d0, l), FileBytes(g, d, l), offset, x)
    ensures AllInRange(g, l + [nc]) && OthersKept(g, d0, d', l + [nc])
    ensures Wrote(FileBytes(g, d0, l + [nc]), FileBytes(g, d', l + [nc]), offset, x)
  {
    hide Data, Flat, Room, Proper, Wrote;
    var l' := l + [nc];
    assert AllInRange(g, l');
    forall c: nat | InRange(g, c) ensures Data(g, d', c) == Data(g, d, c) {
      DataFrame(g, d, d', c);
    }
    assert Pieces(g, d', l') == Pieces(g, d, l) + [Data(g, d0, nc)];
    assert Pieces(g, d0, l') == Pieces(g, d0, l) + [Data(g, d0, nc)];
    FlatSnoc(Pieces(g, d, l), Data(g, d0, nc));
    FlatSnoc(Pieces(g, d0, l), Data(g, d0, nc));
    WroteLonger(FileBytes(g, d0, l), FileBytes(g, d, l), offset, x, Data(g, d0, nc));
  }

  lemma FlatSnoc(ss: seq<seq<Octet>>, x: seq<Octet>)
    ensures Flat(ss + [x]) == Flat(ss) + x
  {
    FlatAppend(ss, [x]);
    assert Flat([x]) == x + Flat([]) == x;
  }

  /** Linking a free cluster behind the chain keeps the state good. */
  lemma GoodExtend(g: Geometry, d0: seq<Sector>, d: seq<Sector>, d': seq<Sector>, first: nat, l0: seq<nat>, l: seq<nat>,
                   nc: nat, offset: nat, x: seq<Octet>)
    requires Good(g, d0, d, first, l0, l, offset, x) && Sound(g, d') && l != []
    requires nc in Usable(g.kind, Table(g, d)) && l[|l| - 1] < g.clusters
    requires Table(g, d') == Appended(g.kind, Table(g, d), l[|l| - 1], nc)
    requires d'[g.dataStart..] == d[g.dataStart..] && Copies(g, d, d')
    ensures Good(g, d0, d', first, l0, l + [nc], offset, x)
  {
    hide Chain, Table, Data, FileBytes, Grew, Wrote, Appended, Room, OthersKept, IsEnd, Usable, InOneSector;
    var t := Table(g, d);
    UsableIs(g.kind, t, nc);
    ChainAppend(g.kind, t, first, l, nc);
    ChainNext(g.kind, t, first, l, |l| - 1);
    EndNotZero(g.kind, t[l[|l| - 1]]);
    GrewByOne(g.kind, Table(g, d0), t, l0, l, nc);
    UsableAfterAppend(g.kind, t, l[|l| - 1], nc);
    BytesByOne(g, d0, d, d', l, nc, offset, x);
  }

  lemma UsableIs(k: Kind, t: seq<nat>, nc: nat)
    requires nc in Usable(k, t)
    ensures 2 <= nc < |t| && t[nc] == 0 && InOneSector(k, nc)
  {
    hide InOneSector;
  }

  lemma EndNotZero(k: Kind, v: nat)
    requires IsEnd(k, v)
    ensures v != 0
  {
  }

  // ---------- a piece of data ----------

  /** Writing a piece where the last one ended keeps the state good. */
  lemma GoodWrite(g: Geometry, d0: seq<Sector>, d: seq<Sector>, d': seq<Sector>, first: nat, l0: seq<nat>, l: seq<nat>,
                  p: nat, at: nat,
                  offset: nat, x: seq<Octet>, piece: seq<Octet>)
    requires Good(g, d0, d, first, l0, l, offset, x) && Sound(g, d') && p < |l|
    requires at + |piece| <= ClusterSize(g) && Start(g, p) + at == offset + |x|
    requires d'[..g.dataStart] == d[..g.dataStart]
    requires Data(g, d', l[p]) == Overwrite(Data(g, d, l[p]), at, piece)
    requires forall c :: InRange(g, c) && c != l[p] ==> Data(g, d', c) == Data(g, d, c)
    ensures Good(g, d0, d', first, l0, l, offset, x + piece)
  {
    hide Chain, Table, Data, FileBytes, Grew, Wrote, Room, CopiesAgree, Overwrite, Start, ClusterSize, Usable, Plain;
    TableFrame(g, d, d');
    ChainDistinct(g.kind, Table(g, d), first, l);
    FileOverwrite(g, d, d', l, p, at, piece);
    WroteMore(FileBytes(g, d0, l), FileBytes(g, d, l), offset, x, piece);
    assert OthersKept(g, d0, d', l) by {
      assert l[p] in l;
    }
  }
}
