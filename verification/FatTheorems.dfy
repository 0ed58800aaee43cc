/** What a caller of the chain layer can rely on after a write. */
module FatTheorems {
  import opened Units
  import opened FatTable
  import opened FatChain
  import opened FatBytes
  import opened FatWrite
  import opened FatVolume

  /** Every byte that the file had outside the written range keeps its value. */
  lemma OtherBytesKept(g: Geometry, d0: seq<Sector>, d: seq<Sector>, first: nat, l0: seq<nat>, l: seq<nat>, offset: nat,
                       x: seq<Octet>, k: nat)
    requires Good(g, d0, d, first, l0, l, offset, x)
    requires AllInRange(g, l0) && k < |FileBytes(g, d0, l0)| && !(offset <= k < offset + |x|)
    ensures k < |FileBytes(g, d, l)| && FileBytes(g, d, l)[k] == FileBytes(g, d0, l0)[k]
  {
    hide Chain, Table, Data, FileBytes, Room, OthersKept;
    FileExtends(g, d0, l0, l);
  }

  /** The bytes written are there. */
  lemma WrittenBytes(g: Geometry, d0: seq<Sector>, d: seq<Sector>, first: nat, l0: seq<nat>, l: seq<nat>, offset: nat,
                     x: seq<Octet>)
    requires Good(g, d0, d, first, l0, l, offset, x) && x != []
    ensures offset + |x| <= |FileBytes(g, d, l)| && FileBytes(g, d, l)[offset..offset + |x|] == x
  {
    hide Chain, Table, Data, FileBytes, Room, Proper, OthersKept, Grew;
  }

  /** A file that shared no cluster with the one written keeps its links and its bytes. */
  lemma OtherFileKept(g: Geometry, d0: seq<Sector>, d: seq<Sector>, first: nat, l0: seq<nat>, l: seq<nat>, offset: nat,
                      x: seq<Octet>, start: nat, m: seq<nat>)
    requires Good(g, d0, d, first, l0, l, offset, x)
    requires Chain(g.kind, Table(g, d0), start, m) && forall c :: c in m ==> c !in l0
    ensures Chain(g.kind, Table(g, d), start, m) && AllInRange(g, m)
    ensures FileBytes(g, d, m) == FileBytes(g, d0, m)
  {
    hide Chain, Table, Data, Flat, Room, Wrote, IsEnd;
    ChainInRange(g, d0, start, m);
    forall c | c in m ensures c !in l {
      NotTaken(g.kind, Table(g, d0), Table(g, d), l0, l, start, m, c);
    }
    ChainFrame(g.kind, Table(g, d0), Table(g, d), start, m);
    assert Pieces(g, d, m) == Pieces(g, d0, m);
  }

  lemma NotTaken(k: Kind, t0: seq<nat>, t: seq<nat>, l0: seq<nat>, l: seq<nat>, start: nat, m: seq<nat>, c: nat)
    requires Grew(t0, t, l0, l) && Chain(k, t0, start, m) && c in m && c !in l0
    ensures c !in l
  {
    hide Chain;
    PrefixElements(l0, l);
    if c in l {
      var i :| 0 <= i < |l| && l[i] == c;
      FreeNotIn(k, t0, start, m, c);
    }
  }

  /** Writing a file and then freeing it gives the volume back exactly the clusters that were
      free before and those the file had at first, none lost and none freed twice, if and only if
      the chain has at most the 100 000 clusters that free_chain visits. */
  lemma WriteThenFreeConserves(g: Geometry, d0: seq<Sector>, d: seq<Sector>, first: nat, l0: seq<nat>, l: seq<nat>,
                               offset: nat, x: seq<Octet>)
    requires Good(g, d0, d, first, l0, l, offset, x) && Chain(g.kind, Table(g, d0), first, l0)
    ensures Walkable(g.kind, Table(g, d), first, PATIENCE)
    ensures FreeClusters(Cut(g.kind, Table(g, d), first, PATIENCE)) == FreeClusters(Table(g, d0)) + (set c | c in l0)
            <==> |l| <= 100_000
  {
    hide Table, FileBytes, Room, Proper, Wrote, IsEnd, OthersKept, Copies, Walkable, Cut, Grew, FreeClusters, Chain,
         Usable;
    FreedAfterGrowth(g.kind, Table(g, d0), Table(g, d), first, l0, l, PATIENCE);
  }

  /** A write that reports the full length is read back byte for byte. */
  method WriteThenRead(v: Volume, first: nat, offset: nat, data: seq<Octet>, ghost l0: seq<nat>, buf: array<Octet>)
    returns (done: nat, ghost l: seq<nat>)
    requires v.Valid() && first >= 2 && Chain(v.g.kind, v.T(), first, l0) && l0 != [] && Plain(v.g.kind, l0)
    requires data != [] ==> Enough(v.g, v.sectors, |l0|, Wanted(v.g, offset, |data|))
    requires |data| == buf.Length
    modifies v, buf
    ensures v.Valid() && done <= |data| && Good(v.g, old(v.sectors), v.sectors, first, l0, l, offset, data[..done])
    ensures done == |data| ==> buf[..] == data
  {
    hide Wanted, Room, Proper, Spare, Table, Chain, Good, Enough, Plain;
    done, l := v.WriteChain(first, offset, data, l0);
    GoodChain(v.g, old(v.sectors), v.sectors, first, l0, l, offset, data[..done]);
    var out := v.ReadChain(first, offset, buf, l);
    if done == |data| && |data| > 0 {
      assert data[..done] == data;
      WrittenBytes(v.g, old(v.sectors), v.sectors, first, l0, l, offset, data);
      assert out == |data| && buf[..] == buf[..out];
    }
  }

  lemma GoodChain(g: Geometry, d0: seq<Sector>, d: seq<Sector>, first: nat, l0: seq<nat>, l: seq<nat>, offset: nat,
                  x: seq<Octet>)
    requires Good(g, d0, d, first, l0, l, offset, x)
    ensures Sound(g, d) && Chain(g.kind, Table(g, d), first, l) && AllInRange(g, l) && Plain(g.kind, l)
  {
  }

  // ---------- a full volume ----------

  /** Two clusters, both in use, in a table with room for more entries. */
  const SMALL: Geometry := Geometry(Fat16, 1, 1, false, 2, 1, 4)

  function FullDisk(): (d: seq<Sector>)
    ensures |d| == 4
  {
    var zeros: Sector := seq(512, _ => 0 as Octet);
    [zeros, seq(512, i => if i < 8 then 255 else 0), zeros, zeros]
  }

  /** On it alloc_cluster hands out a cluster that does not exist. */
  method FullVolume() returns (v: Volume, nc: nat)
    ensures fresh(v) && v.Valid() && FreeClusters(v.T()) == {} && v.g.clusters <= nc
  {
    hide Seen;
    v := new Volume(SMALL, FullDisk());
    NoneFree();
    nc := v.AllocCluster();
  }

  lemma NoneFree()
    ensures Sound(SMALL, FullDisk()) && FreeClusters(Table(SMALL, FullDisk())) == {}
    ensures ReadsZero(SMALL, FullDisk(), 4)
  {
    var d := FullDisk();
    var t := Table(SMALL, d);
    assert t[2] == Entry(Fat16, d, 1, 2) && t[3] == Entry(Fat16, d, 1, 3);
    assert ByteAt(d, 1, 4) == 255 && ByteAt(d, 1, 5) == 255 && ByteAt(d, 1, 6) == 255 && ByteAt(d, 1, 7) == 255;
    assert Offset(Fat16, 4) == 8 && d[1][8] == 0 && d[1][9] == 0;
  }
}
