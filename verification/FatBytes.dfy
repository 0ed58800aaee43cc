/** The bytes of a file: its clusters one after another, each a run of sectors, and what
    overwriting a part of one of them does to the whole. */
module FatBytes {
  import opened Units
  import opened FatTable
  import opened FatChain

  // ---------- concatenation ----------

  function Flat(ss: seq<seq<Octet>>): seq<Octet> {
    if ss == [] then [] else ss[0] + Flat(ss[1..])
  }

  lemma {:induction false} FlatAppend(a: seq<seq<Octet>>, b: seq<seq<Octet>>)
    ensures Flat(a + b) == Flat(a) + Flat(b)
  {
    if a == [] {
      assert a + b == b;
    } else {
      FlatAppend(a[1..], b);
      assert (a + b)[1..] == a[1..] + b && (a + b)[0] == a[0];
      Associate(a[0], Flat(a[1..]), Flat(b));
    }
  }

  lemma Associate(x: seq<Octet>, y: seq<Octet>, z: seq<Octet>)
    ensures x + (y + z) == (x + y) + z
  {
  }

  /** One piece and what lies around it. */
  lemma FlatAround(ss: seq<seq<Octet>>, i: nat)
    requires i < |ss|
    ensures Flat(ss) == Flat(ss[..i]) + ss[i] + Flat(ss[i + 1..])
  {
    hide Flat;
    FlatAppend(ss[..i], ss[i..]);
    assert ss == ss[..i] + ss[i..];
    FlatHead(ss[i..]);
    assert ss[i..][1..] == ss[i + 1..];
  }

  lemma FlatHead(ss: seq<seq<Octet>>)
    requires ss != []
    ensures Flat(ss) == ss[0] + Flat(ss[1..])
  {
  }

  lemma {:induction false} FlatLength(ss: seq<seq<Octet>>, n: nat)
    requires forall i :: 0 <= i < |ss| ==> |ss[i]| == n
    ensures |Flat(ss)| == |ss| * n
  {
    if ss != [] {
      FlatLength(ss[1..], n);
    }
  }

  /** The bytes from position at replaced by others. */
  function Overwrite(b: seq<Octet>, at: nat, data: seq<Octet>): seq<Octet>
    requires at + |data| <= |b|
  {
    b[..at] + data + b[at + |data|..]
  }

  /** Overwriting within one piece overwrites the whole at that place. */
  lemma FlatOverwrite(ss: seq<seq<Octet>>, i: nat, at: nat, data: seq<Octet>)
    requires i < |ss| && at + |data| <= |ss[i]|
    ensures |Flat(ss[..i])| + at + |data| <= |Flat(ss)|
    ensures Flat(ss[i := Overwrite(ss[i], at, data)]) == Overwrite(Flat(ss), |Flat(ss[..i])| + at, data)
  {
    hide Flat;
    var tt := ss[i := Overwrite(ss[i], at, data)];
    FlatAround(ss, i);
    FlatAround(tt, i);
    assert tt[..i] == ss[..i] && tt[i + 1..] == ss[i + 1..];
    OverwriteMiddle(Flat(ss[..i]), ss[i], Flat(ss[i + 1..]), at, data);
  }

  lemma OverwriteMiddle(a: seq<Octet>, b: seq<Octet>, c: seq<Octet>, at: nat, data: seq<Octet>)
    requires at + |data| <= |b|
    ensures a + Overwrite(b, at, data) + c == Overwrite(a + b + c, |a| + at, data)
  {
  }

  /** Two adjacent overwrites are one. */
  lemma OverwriteTwice(b: seq<Octet>, at: nat, x: seq<Octet>, y: seq<Octet>)
    requires at + |x| + |y| <= |b|
    ensures Overwrite(Overwrite(b, at, x), at + |x|, y) == Overwrite(b, at, x + y)
  {
  }

  // ---------- clusters ----------

  /** cluster_to_lba */
  function Lba(g: Geometry, c: nat): nat
    requires c >= 2
  {
    g.dataStart + (c - 2) * g.sectorsPerCluster
  }

  ghost predicate Room(g: Geometry, d: seq<Sector>)
    requires g.clusters >= 2
  {
    |d| >= Lba(g, g.clusters)
  }

  lemma LbaOrder(g: Geometry, c: nat, c': nat)
    requires 2 <= c < c'
    ensures g.dataStart <= Lba(g, c) && Lba(g, c) + g.sectorsPerCluster <= Lba(g, c')
  {
    var n := g.sectorsPerCluster;
    Distribute(c - 2, 1, n);
    Distribute(c - 1, c' - c - 1, n);
  }

  lemma Distribute(a: nat, b: nat, n: nat)
    ensures (a + b) * n == a * n + b * n && b * n >= 0
  {
  }

  /** The sectors of a cluster. */
  function Run(g: Geometry, d: seq<Sector>, c: nat): (r: seq<Sector>)
    requires 2 <= c && Lba(g, c) + g.sectorsPerCluster <= |d|
    ensures |r| == g.sectorsPerCluster
  {
    d[Lba(g, c)..Lba(g, c) + g.sectorsPerCluster]
  }

  function ClusterSize(g: Geometry): nat { 512 * g.sectorsPerCluster }

  ghost predicate InRange(g: Geometry, c: nat) { 2 <= c < g.clusters }

  /** The bytes of a cluster. */
  ghost function Data(g: Geometry, d: seq<Sector>, c: nat): (b: seq<Octet>)
    requires g.clusters >= 2 && Room(g, d) && InRange(g, c)
    ensures |b| == ClusterSize(g)
  {
    LbaOrder(g, c, g.clusters);
    FlatLength(Run(g, d, c), 512);
    Flat(Run(g, d, c))
  }

  /** Writing one sector of a cluster overwrites the cluster there and no other cluster. */
  lemma SectorWrite(g: Geometry, d: seq<Sector>, c: nat, s: nat, at: nat, piece: seq<Octet>)
    requires g.clusters >= 2 && Room(g, d) && InRange(g, c) && s < g.sectorsPerCluster && at + |piece| <= 512
    requires Lba(g, c) + s < |d|
    ensures var d' := d[Lba(g, c) + s := Patched(d[Lba(g, c) + s], at, piece)];
            Room(g, d') && d'[..g.dataStart] == d[..g.dataStart] && 512 * s + at + |piece| <= ClusterSize(g) &&
            Data(g, d', c) == Overwrite(Data(g, d, c), 512 * s + at, piece) &&
            forall c' :: InRange(g, c') && c' != c ==> Data(g, d', c') == Data(g, d, c')
  {
    hide Lba, Flat, Patched;
    LbaOrder(g, c, g.clusters);
    var d' := d[Lba(g, c) + s := Patched(d[Lba(g, c) + s], at, piece)];
    var run := Run(g, d, c);
    assert Run(g, d', c) == run[s := Patched(run[s], at, piece)];
    PatchedIs(run[s], at, piece);
    FlatOverwrite(run, s, at, piece);
    FlatLength(run[..s], 512);
    forall c': nat | InRange(g, c') && c' != c ensures Data(g, d', c') == Data(g, d, c') {
      LbaOrder(g, c', g.clusters);
      if c' < c {
        LbaOrder(g, c', c);
      } else {
        LbaOrder(g, c, c');
      }
      assert Run(g, d', c') == Run(g, d, c');
    }
  }

  /** Sector s of a cluster holds its bytes from 512s on. */
  lemma SectorBytes(g: Geometry, d: seq<Sector>, c: nat, s: nat)
    requires g.clusters >= 2 && Room(g, d) && InRange(g, c) && s < g.sectorsPerCluster
    ensures Lba(g, c) + s < |d| && 512 * s + 512 <= ClusterSize(g)
    ensures Data(g, d, c)[512 * s..512 * s + 512] == d[Lba(g, c) + s]
  {
    hide Lba, Flat;
    LbaOrder(g, c, g.clusters);
    var run := Run(g, d, c);
    FlatAround(run, s);
    FlatLength(run[..s], 512);
  }

  lemma PatchedIs(s: Sector, at: nat, piece: seq<Octet>)
    requires at + |piece| <= 512
    ensures Patched(s, at, piece) == Overwrite(s, at, piece)
  {
  }

  /** Clusters do not depend on the tables. */
  lemma {:induction false} FlatAt(ss: seq<seq<Octet>>, x: nat)
    requires (forall i :: 0 <= i < |ss| ==> |ss[i]| == 512) && x < 512 * |ss|
    ensures |Flat(ss)| == 512 * |ss| && Flat(ss)[x] == ss[x / 512][x % 512]
  {
    FlatLength(ss, 512);
    if x >= 512 {
      FlatLength(ss[1..], 512);
      FlatAt(ss[1..], x - 512);
      assert Flat(ss)[x] == Flat(ss[1..])[x - 512];
    }
  }

  /** Cluster 2 lies at the start of the data area, and the others right behind it, sector by sector. */
  lemma DataByte(g: Geometry, d: seq<Sector>, c: nat, k: nat)
    requires g.clusters >= 2 && Room(g, d) && InRange(g, c) && k < 512 * g.sectorsPerCluster
    ensures var s := g.dataStart + (c - 2) * g.sectorsPerCluster + k / 512;
            s < |d| && |Data(g, d, c)| == 512 * g.sectorsPerCluster && Data(g, d, c)[k] == d[s][k % 512]
  {
    LbaOrder(g, c, g.clusters);
    FlatAt(Run(g, d, c), k);
  }

  lemma DataFrame(g: Geometry, d: seq<Sector>, d': seq<Sector>, c: nat)
    requires g.clusters >= 2 && Room(g, d) && Room(g, d') && InRange(g, c) && d'[g.dataStart..] == d[g.dataStart..]
    requires g.dataStart <= |d|
    ensures Data(g, d', c) == Data(g, d, c)
  {
    hide Lba, Flat;
    LbaOrder(g, c, g.clusters);
    var o := Lba(g, c) - g.dataStart;
    assert Run(g, d', c) == d'[g.dataStart..][o..o + g.sectorsPerCluster];
    assert Run(g, d, c) == d[g.dataStart..][o..o + g.sectorsPerCluster];
  }

  // ---------- files ----------

  ghost predicate AllInRange(g: Geometry, l: seq<nat>) { forall i :: 0 <= i < |l| ==> InRange(g, l[i]) }

  ghost function Pieces(g: Geometry, d: seq<Sector>, l: seq<nat>): (r: seq<seq<Octet>>)
    requires g.clusters >= 2 && Room(g, d) && AllInRange(g, l)
    ensures |r| == |l| && forall i :: 0 <= i < |r| ==> r[i] == Data(g, d, l[i]) && |r[i]| == ClusterSize(g)
  {
    seq(|l|, i requires 0 <= i < |l| => Data(g, d, l[i]))
  }

  /** The bytes of a file whose clusters are l. */
  ghost function FileBytes(g: Geometry, d: seq<Sector>, l: seq<nat>): seq<Octet>
    requires g.clusters >= 2 && Room(g, d) && AllInRange(g, l)
  {
    Flat(Pieces(g, d, l))
  }

  /** Where cluster p of a file starts. */
  function Start(g: Geometry, p: nat): nat { p * ClusterSize(g) }

  lemma FileLength(g: Geometry, d: seq<Sector>, l: seq<nat>)
    requires g.clusters >= 2 && Room(g, d) && AllInRange(g, l)
    ensures |FileBytes(g, d, l)| == Start(g, |l|)
  {
    hide Data, Flat;
    FlatLength(Pieces(g, d, l), ClusterSize(g));
  }

  /** Overwriting within the cluster at position p overwrites the file at that place. */
  lemma FileOverwrite(g: Geometry, d: seq<Sector>, d': seq<Sector>, l: seq<nat>, p: nat, at: nat, piece: seq<Octet>)
    requires g.clusters >= 2 && Room(g, d) && Room(g, d') && AllInRange(g, l) && p < |l|
    requires forall i, j :: 0 <= i < j < |l| ==> l[i] != l[j]
    requires at + |piece| <= ClusterSize(g)
    requires Data(g, d', l[p]) == Overwrite(Data(g, d, l[p]), at, piece)
    requires forall c :: InRange(g, c) && c != l[p] ==> Data(g, d', c) == Data(g, d, c)
    ensures Start(g, p) + at + |piece| <= |FileBytes(g, d, l)|
    ensures FileBytes(g, d', l) == Overwrite(FileBytes(g, d, l), Start(g, p) + at, piece)
  {
    hide Data, Flat, Overwrite, ClusterSize;
    var ss := Pieces(g, d, l);
    assert Pieces(g, d', l) == ss[p := Overwrite(ss[p], at, piece)];
    FlatOverwrite(ss, p, at, piece);
    FlatLength(ss[..p], ClusterSize(g));
  }

  /** A longer list of clusters keeps the bytes of the shorter one in front. */
  lemma FileExtends(g: Geometry, d: seq<Sector>, l: seq<nat>, l': seq<nat>)
    requires g.clusters >= 2 && Room(g, d) && AllInRange(g, l') && l <= l'
    ensures AllInRange(g, l) && FileBytes(g, d, l) <= FileBytes(g, d, l')
  {
    hide Data, Flat;
    forall i | 0 <= i < |l| ensures InRange(g, l[i]) {
      assert l[i] == l'[i];
    }
    assert Pieces(g, d, l') == Pieces(g, d, l) + Pieces(g, d, l')[|l|..];
    FlatAppend(Pieces(g, d, l), Pieces(g, d, l')[|l|..]);
  }

  /** The bytes of the cluster at position p of a file. */
  lemma FileSlice(g: Geometry, d: seq<Sector>, l: seq<nat>, p: nat)
    requires g.clusters >= 2 && Room(g, d) && AllInRange(g, l) && p < |l|
    ensures Start(g, p) + ClusterSize(g) <= |FileBytes(g, d, l)|
    ensures FileBytes(g, d, l)[Start(g, p)..Start(g, p) + ClusterSize(g)] == Data(g, d, l[p])
  {
    hide Data, Flat, ClusterSize;
    var ss := Pieces(g, d, l);
    FlatAround(ss, p);
    FlatLength(ss[..p], ClusterSize(g));
  }
}
