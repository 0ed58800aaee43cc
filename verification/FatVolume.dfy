/** A mounted FAT volume: the entry routines, cluster allocation and freeing, and reading and
    writing a file through its chain, over a disk whose transfers succeed. */
module FatVolume {
  import opened Units
  import opened FatTable
  import opened FatChain
  import opened FatBytes
  import opened FatNumber
  import opened FatWrite

  /** The code gives up on a chain after this many clusters. */
  const PATIENCE: nat := 100_000

  /** The clusters a file must have to reach byte end. */
  function Need(g: Geometry, end: nat): nat
    requires g.sectorsPerCluster > 0
  {
    (end + ClusterSize(g) - 1) / ClusterSize(g)
  }

  lemma NeedReaches(g: Geometry, end: nat, p: nat)
    requires g.sectorsPerCluster > 0 && Start(g, p) < end
    ensures p < Need(g, end)
  {
    var n := ClusterSize(g);
    Quotient(end + n - 1, n, p + 1);
    assert (p + 1) * n == p * n + n;
  }

  lemma Quotient(a: nat, n: nat, q: nat)
    requires n > 0 && q * n <= a
    ensures q <= a / n
  {
    assert a == n * (a / n) + a % n;
    Multiples(q, a / n, n);
  }

  lemma Multiples(q: nat, r: nat, n: nat)
    requires q * n < r * n + n
    ensures q <= r
  {
    if q > r {
      Distribute(r, 1, n);
      Distribute(r + 1, q - r - 1, n);
    }
  }

  /** Which cluster of a file holds a byte, and where in it. */
  function ClusterOf(g: Geometry, offset: nat): nat
    requires g.sectorsPerCluster > 0
  {
    Divide(offset, ClusterSize(g))
  }

  function WithinCluster(g: Geometry, offset: nat): (r: nat)
    requires g.sectorsPerCluster > 0
    ensures r < ClusterSize(g)
  {
    Remainder(offset, ClusterSize(g))
  }

  function Divide(a: nat, n: nat): nat requires n > 0 { a / n }
  function Remainder(a: nat, n: nat): (r: nat) requires n > 0 ensures r < n { a % n }

  lemma Divided(g: Geometry, offset: nat)
    requires g.sectorsPerCluster > 0
    ensures Start(g, ClusterOf(g, offset)) + WithinCluster(g, offset) == offset
  {
    DivideBack(offset, ClusterSize(g));
  }

  lemma DivideBack(a: nat, n: nat)
    requires n > 0
    ensures Divide(a, n) * n + Remainder(a, n) == a
  {
  }

  function Min(a: int, b: int): int { if a <= b then a else b }

  /** How many of n bytes at an offset the two loops reach: none when more than 100 000 clusters
      have to be skipped, and then the bytes of at most 100 000 clusters. */
  function Reach(g: Geometry, offset: nat, n: nat): (r: nat)
    requires g.sectorsPerCluster > 0
    ensures r <= n
  {
    if ClusterOf(g, offset) > PATIENCE then 0
    else
      ReachInside(g, WithinCluster(g, offset));
      Min(n, Start(g, PATIENCE) - WithinCluster(g, offset))
  }

  /** The same in plain numbers. */
  lemma ReachMeaning(g: Geometry, offset: nat, n: nat)
    requires g.sectorsPerCluster > 0
    ensures var size := 512 * g.sectorsPerCluster;
            Reach(g, offset, n) ==
            if offset / size > 100_000 then 0
            else if n <= 100_000 * size - offset % size then n
            else 100_000 * size - offset % size
  {
    assert ClusterSize(g) == 512 * g.sectorsPerCluster;
  }

  lemma ReachInside(g: Geometry, within: nat)
    requires within < ClusterSize(g)
    ensures within < Start(g, PATIENCE)
  {
  }

  lemma ReachPositive(g: Geometry, offset: nat, n: nat)
    requires g.sectorsPerCluster > 0
    ensures ClusterOf(g, offset) <= PATIENCE ==>
            Reach(g, offset, n) == Min(n, Start(g, PATIENCE) - WithinCluster(g, offset))
  {
  }

  lemma StartAdds(g: Geometry, p: nat, n: nat)
    ensures Start(g, p + n) == Start(g, p) + Start(g, n)
  {
    Distribute(p, n, ClusterSize(g));
  }

  lemma NextStart(g: Geometry, p: nat)
    ensures Start(g, p + 1) == Start(g, p) + ClusterSize(g)
  {
  }

  lemma NextByte(d: seq<Sector>, base: nat, x: nat, j: nat)
    requires base + x / 512 < |d| && x % 512 + j < 512
    ensures base + (x + j) / 512 < |d| && ByteAt(d, base, x + j) == d[base + x / 512][x % 512 + j]
  {
    assert (x + j) / 512 == x / 512 && (x + j) % 512 == x % 512 + j;
  }

  lemma MirrorInside(g: Geometry, c: nat)
    requires Proper(g) && c < g.clusters && g.mirrored
    ensures g.reserved + Offset(g.kind, c) / 512 + g.fatSectors < g.dataStart
  {
    hide Offset;
    CellInside(g, c);
  }

  /** An entry read out of its sector, and the bytes that replace it there. */
  function LocalEntry(k: Kind, c: nat, buf: Sector, at: nat): nat
    requires at + Width(k) <= 512
  {
    match k
    case Fat12 => Get12(c, Join(buf[at], buf[at + 1]))
    case Fat16 => Join(buf[at], buf[at + 1])
    case Fat32 => Get32(Join4(buf[at], buf[at + 1], buf[at + 2], buf[at + 3]))
  }

  function LocalBytes(k: Kind, c: nat, buf: Sector, at: nat, value: nat): (b: seq<Octet>)
    requires at + Width(k) <= 512
    ensures |b| == Width(k)
  {
    match k
    case Fat12 => Two(Set12(c, Join(buf[at], buf[at + 1]), value))
    case Fat16 => Two(value % 0x1_0000)
    case Fat32 => Four(Set32(Join4(buf[at], buf[at + 1], buf[at + 2], buf[at + 3]), value))
  }

  /** What fat_read_entry gives for any cluster number: behind the table it reads other sectors, and
      behind the disk it answers with the end mark. */
  function Seen(g: Geometry, d: seq<Sector>, c: nat): nat
    requires InOneSector(g.kind, c)
  {
    var off := Offset(g.kind, c);
    if g.reserved + off / 512 < |d| then LocalEntry(g.kind, c, d[g.reserved + off / 512], off % 512)
    else EndMark(g.kind)
  }

  predicate ReadsZero(g: Geometry, d: seq<Sector>, c: nat) { InOneSector(g.kind, c) && Seen(g, d, c) == 0 }

  lemma SeenInside(g: Geometry, d: seq<Sector>, c: nat)
    requires Proper(g) && |d| >= g.dataStart && c < g.clusters && InOneSector(g.kind, c)
    ensures Seen(g, d, c) == Table(g, d)[c]
  {
    hide LocalEntry, Entry, Offset, InOneSector;
    CellInside(g, c);
    LocalMeaning(g.kind, d, g.reserved, c, 0);
  }

  lemma LocalMeaning(k: Kind, d: seq<Sector>, base: nat, c: nat, value: nat)
    requires base + Last(k, c) / 512 < |d| && InOneSector(k, c)
    ensures base + Offset(k, c) / 512 < |d|
    ensures var buf := d[base + Offset(k, c) / 512];
            var at := Offset(k, c) % 512;
            LocalEntry(k, c, buf, at) == Entry(k, d, base, c) &&
                LocalBytes(k, c, buf, at, value) == NewBytes(k, d, base, c, value)
  {
    hide Get12, Get32, Set12, Set32, Join, Offset, Lo, Hi, ByteAt;
    var x := Offset(k, c);
    NextByte(d, base, x, 0);
    NextByte(d, base, x, 1);
    if k == Fat32 {
      NextByte(d, base, x, 2);
      NextByte(d, base, x, 3);
    }
  }

  class Volume {
    const g: Geometry
    var sectors: seq<Sector>

    ghost predicate Valid()
      reads this`sectors
    {
      Sound(g, sectors)
    }

    /** mount */
    constructor (g: Geometry, sectors: seq<Sector>)
      requires Sound(g, sectors)
      ensures Valid() && this.g == g && this.sectors == sectors
    {
      this.g := g;
      this.sectors := sectors;
    }

    /** The entries of the table. */
    ghost function T(): seq<nat>
      requires Valid()
      reads this`sectors
    {
      Table(g, sectors)
    }

    /** The table as one number. */
    ghost function TableNumber(): nat
      requires Valid()
      reads this`sectors
    {
      Number(TableBytes(g, sectors))
    }

    // ---------- entries ----------

    /** fat_read_entry, for any cluster number. */
    method ReadEntry(cluster: nat) returns (v: nat)
      requires Valid() && InOneSector(g.kind, cluster)
      ensures v == Seen(g, sectors, cluster)
      ensures cluster < g.clusters ==> v == T()[cluster] && v == Field(g.kind, TableNumber(), cluster)
    {
      hide LocalEntry, Entry, Offset, Proper, Room, Field, Number, TableBytes;
      if cluster < g.clusters {
        SeenInside(g, sectors, cluster);
        EntryIsField(g, sectors, cluster);
      }
      var off := Offset(g.kind, cluster);
      var sector := g.reserved + off / 512;
      var byteOff := off % 512;
      if sector >= |sectors| {
        return EndMark(g.kind);
      }
      var buf := sectors[sector];
      v := LocalEntry(g.kind, cluster, buf, byteOff);
    }

    /** fat_write_entry: one entry of the table, in both copies; no data sector. */
    method WriteEntry(cluster: nat, value: nat)
      requires Valid() && cluster < g.clusters && InOneSector(g.kind, cluster)
      modifies this`sectors
      ensures Valid() && sectors == SetEntry(g, old(sectors), cluster, value)
      ensures T() == old(T())[cluster := value % Modulus(g.kind)]
      ensures OnlyField(g.kind, old(TableNumber()), TableNumber(), cluster, value)
      ensures Copies(g, old(sectors), sectors) && sectors[g.dataStart..] == old(sectors)[g.dataStart..]
    {
      hide OnlyField, Number, TableBytes, LocalBytes, NewBytes, Offset, Proper, Table, CopiesAgree, Patched, Lba;
      CellInside(g, cluster);
      LocalMeaning(g.kind, sectors, g.reserved, cluster, value);
      SetEntryMeaning(g, sectors, cluster, value);
      OnlyFieldWritten(g, sectors, cluster, value);
      var off := Offset(g.kind, cluster);
      var sector := g.reserved + off / 512;
      var byteOff := off % 512;
      var buf := sectors[sector];
      buf := Patched(buf, byteOff, LocalBytes(g.kind, cluster, buf, byteOff, value));
      sectors := sectors[sector := buf];
      if g.mirrored {
        var s2 := sector + g.fatSectors;
        MirrorInside(g, cluster);
        sectors := sectors[s2 := buf];
      }
    }

    // ---------- allocation ----------

    /** alloc_cluster: the first cluster number whose entry reads zero, or 0. The scan ignores the
        size of the volume, so it answers with a cluster of the volume or 0 if and only if one is
        free or nothing behind the table reads zero. Among twelve-bit entries it must find one
        before the first that straddles two sectors. */
    method AllocCluster() returns (nc: nat)
      requires Valid() && (g.kind == Fat12 ==> exists c :: 2 <= c < 341 && ReadsZero(g, sectors, c))
      ensures nc != 0 ==>
                2 <= nc < Limit(g.kind) && ReadsZero(g, sectors, nc) &&
                forall c :: 2 <= c < nc ==> !ReadsZero(g, sectors, c)
      ensures nc == 0 ==> forall c :: 2 <= c < Limit(g.kind) ==> !ReadsZero(g, sectors, c)
      ensures nc < g.clusters <==>
              FreeClusters(T()) != {} || forall c :: g.clusters <= c < Limit(g.kind) ==> !ReadsZero(g, sectors, c)
    {
      hide Table, Room, Offset, InOneSector, Seen;
      nc := 0;
      for cl := 2 to Limit(g.kind)
        invariant forall c :: 2 <= c < cl ==> !ReadsZero(g, sectors, c)
      {
        ScanGoesOn(g, sectors, cl);
        var v := ReadEntry(cl);
        if v == 0 {
          v := ReadEntry(cl);
          if v == 0 {
            nc := cl;
            break;
          }
        }
      }
      FoundInside(g, sectors, nc);
    }

    /** A free cluster put behind the last cluster of a chain; 0 when there is none. */
    method Extend(first: nat, ghost l: seq<nat>, cluster: nat) returns (nc: nat)
      requires Valid() && ScanSafe(g.kind, T()) && Plain(g.kind, l)
      requires Chain(g.kind, T(), first, l) && l != [] && cluster == l[|l| - 1] < g.clusters
      modifies this`sectors
      ensures Valid()
      ensures nc == 0 ==> sectors == old(sectors) && FreeClusters(T()) == {}
      ensures nc != 0 ==> nc in Usable(g.kind, old(T()))
      ensures nc != 0 ==> T() == Appended(g.kind, old(T()), cluster, nc)
      ensures Copies(g, old(sectors), sectors) && sectors[g.dataStart..] == old(sectors)[g.dataStart..]
    {
      hide Table, Room, CopiesAgree, SetEntry, Proper, FreeClusters, Chain, ScanSafe, Usable, InOneSector;
      SafeScan(g, sectors);
      nc := AllocCluster();
      FoundInside(g, sectors, nc);
      InsideSafe(g, sectors);
      SafeFind(g, sectors, nc);
      if nc == 0 {
        return;
      }
      UsableIs(g.kind, T(), nc);
      EntryFits(g, nc);
      WriteEntry(nc, EndMark(g.kind));
      WriteEntry(cluster, nc);
    }

    /** free_chain, on any table in which the clusters it visits can be read, cyclic or not. */
    method FreeChain(start: nat)
      requires Valid() && Walkable(g.kind, T(), start, PATIENCE)
      modifies this`sectors
      ensures Valid()
      ensures T() == Cut(g.kind, old(T()), start, PATIENCE)
      ensures Copies(g, old(sectors), sectors) && sectors[g.dataStart..] == old(sectors)[g.dataStart..]
    {
      hide Table, Room, CopiesAgree, SetEntry, Proper, Cut, Walkable, IsEnd, InOneSector;
      var cl: nat := start;
      var iter: nat := 0;
      ghost var t0 := T();
      while !IsEnd(g.kind, cl) && cl >= 2
        invariant Valid() && 0 <= iter <= PATIENCE
        invariant Walkable(g.kind, T(), cl, PATIENCE - iter)
        invariant Cut(g.kind, t0, start, PATIENCE) == Cut(g.kind, T(), cl, PATIENCE - iter)
        invariant Copies(g, old(sectors), sectors) && sectors[g.dataStart..] == old(sectors)[g.dataStart..]
        decreases PATIENCE - iter
      {
        iter := iter + 1;
        if iter > PATIENCE {
          break;
        }
        CutStep(g.kind, T(), cl, PATIENCE - iter + 1);
        var next := ReadEntry(cl);
        WriteEntry(cl, 0);
        cl := next;
      }
      CutEnd(g.kind, T(), cl, if iter > PATIENCE then 0 else PATIENCE - iter);
    }

    // ---------- reading ----------

    /** A part of one sector of a cluster copied into the buffer. */
    method ReadSector(cluster: nat, s: nat, secStart: nat, take: nat, buf: array<Octet>, out: nat)
      requires Valid() && InRange(g, cluster) && s < g.sectorsPerCluster && secStart + take <= 512 &&
               out + take <= buf.Length
      modifies buf
      ensures FilledFrom(old(buf[..]), buf[..], out, Data(g, sectors, cluster), 512 * s + secStart,
                         512 * s + secStart + take)
    {
      hide Data, Room, Proper, Lba, Filled;
      SectorBytes(g, sectors, cluster, s);
      var sec := sectors[Lba(g, cluster) + s];
      SubSector(Data(g, sectors, cluster), sec, s, secStart, take);
      CopyInto(buf, out, sec[secStart..secStart + take]);
    }

    /** The sector loop of read_chain on one cluster: want bytes from position intra on. */
    method ReadCluster(cluster: nat, intra: nat, want: nat, buf: array<Octet>, out0: nat) returns (out: nat)
      requires Valid() && InRange(g, cluster) && 0 < want && intra + want <= ClusterSize(g) && out0 + want <= buf.Length
      requires want == buf.Length - out0 || intra + want == ClusterSize(g)
      modifies buf
      ensures out == out0 + want
      ensures FilledFrom(old(buf[..]), buf[..], out0, Data(g, sectors, cluster), intra, intra + want)
    {
      hide Data, Room, Proper, Lba, FilledFrom, Min, SectorOf, SectorsTo, WithinSector, At, Take;
      var firstSec := SectorOf(intra);
      var lastByte := intra + want;
      var lastSec := SectorsTo(lastByte);
      ghost var whole := Data(g, sectors, cluster);
      ghost var before := buf[..];
      ghost var pos: nat := intra;
      out := out0;
      var s := firstSec;
      SectorStart(intra, want);
      FilledNone(before, out0, whole, intra);
      while s < lastSec
        invariant firstSec <= s <= lastSec && intra <= pos <= lastByte && pos - intra == out - out0
        invariant At(intra, lastByte, s, pos)
        invariant FilledFrom(before, buf[..], out0, whole, intra, pos)
      {
        SectorStep(g.sectorsPerCluster, intra, want, s, pos);
        var secStart := if s == firstSec then WithinSector(intra) else 0;
        TakeIs(g.sectorsPerCluster, intra, want, s, pos, buf.Length - out, secStart);
        var take := Take(lastByte, s, secStart, buf.Length - out);
        if take == 0 {
          break;
        }
        ghost var mid := buf[..];
        ReadSector(cluster, s, secStart, take, buf, out);
        FilledMore(before, mid, buf[..], out0, whole, intra, pos, take);
        pos := pos + take;
        out := out + take;
        s := s + 1;
        if out >= buf.Length {
          break;
        }
      }
      if s == lastSec {
        SectorEnd(intra, want, pos);
      }
    }

    /** read_chain: the bytes of the file from offset on, as far as the buffer, the file and the
        two loop bounds go. */
    method ReadChain(first: nat, offset: nat, buf: array<Octet>, ghost l: seq<nat>) returns (out: nat)
      requires Valid() && (first >= 2 ==> Chain(g.kind, T(), first, l) && Plain(g.kind, l))
      modifies buf
      ensures first < 2 ==> out == 0 && buf[..] == old(buf[..])
      ensures first >= 2 ==> AllInRange(g, l) && ReadOut(FileBytes(g, sectors, l), offset, old(buf[..]), buf[..], out)
      ensures first >= 2 ==>
              AllInRange(g, l) &&
              out == Available(|FileBytes(g, sectors, l)|, offset, Reach(g, offset, buf.Length))
    {
      hide Chain, Table, IsEnd, Room, FileBytes, Start, ClusterSize, ClusterOf, WithinCluster, ReadOut, Filled, Data,
           InOneSector;
      out := 0;
      ghost var before := buf[..];
      if first < 2 {
        return;
      }
      ghost var file := ChainFile(g, sectors, first, l);
      ReadNone(file, offset, before);
      if buf.Length == 0 {
        return;
      }
      var cluster: nat := first;
      var skip := ClusterOf(g, offset);
      var iter := 0;
      ghost var p := 0;
      assert l[0..] == l;
      while skip > 0
        invariant p + skip == ClusterOf(g, offset) && p <= |l| && iter == p <= PATIENCE && skip >= 0
        invariant buf[..] == before && out == 0
        invariant Chain(g.kind, T(), cluster, l[p..])
      {
        ChainHead(g.kind, T(), cluster, l, p);
        if IsEnd(g.kind, cluster) || cluster < 2 {
          PastEnd(g, sectors, l, offset, p);
          return;
        }
        cluster := ReadEntry(cluster);
        skip := skip - 1;
        iter := iter + 1;
        p := p + 1;
        if iter > PATIENCE {
          return;
        }
      }
      Divided(g, offset);
      ReachPositive(g, offset, buf.Length);
      out := ReadFrom(cluster, WithinCluster(g, offset), buf, l, p, offset);
    }

    /** The second loop of read_chain. */
    method ReadFrom(cluster0: nat, intra0: nat, buf: array<Octet>, ghost l: seq<nat>, ghost p0: nat, ghost offset: nat)
        returns (out: nat)
      requires Valid() && buf.Length > 0 && p0 <= |l| && AllInRange(g, l) && Plain(g.kind, l) &&
               Chain(g.kind, T(), cluster0, l[p0..])
      requires intra0 < ClusterSize(g) && Start(g, p0) + intra0 == offset
      modifies buf
      ensures ReadOut(FileBytes(g, sectors, l), offset, old(buf[..]), buf[..], out)
      ensures out == Available(|FileBytes(g, sectors, l)|, offset, Min(buf.Length, Start(g, PATIENCE) - intra0))
    {
      hide Chain, Table, IsEnd, Room, FileBytes, Start, ClusterSize, ReadOut, Filled, Data, InOneSector;
      StartAdds(g, p0, PATIENCE);
      ReachInside(g, intra0);
      ghost var before := buf[..];
      ghost var file := FileBytes(g, sectors, l);
      ReadNone(file, offset, before);
      FileLength(g, sectors, l);
      var cluster: nat := cluster0;
      var intra := intra0;
      out := 0;
      var iter := 0;
      ghost var p := p0;
      while out < buf.Length
        invariant p0 <= p <= |l| && iter == p - p0 <= PATIENCE && Chain(g.kind, T(), cluster, l[p..])
        invariant 0 <= intra < ClusterSize(g) && Start(g, p) + intra == offset + out && out <= buf.Length
        invariant (p == p0 || intra == 0) && out <= Start(g, PATIENCE) - intra0
        invariant ReadOut(file, offset, before, buf[..], out)
        decreases |l| - p
      {
        iter := iter + 1;
        StartAdds(g, p, p0 + PATIENCE - p);
        ChainHead(g.kind, T(), cluster, l, p);
        if iter > PATIENCE {
          break;
        }
        if IsEnd(g.kind, cluster) || cluster < 2 {
          break;
        }
        NextStart(g, p);
        StartAdds(g, p + 1, p0 + PATIENCE - p - 1);
        var avail := ClusterSize(g) - intra;
        var want := if buf.Length - out <= avail then buf.Length - out else avail;
        ghost var mid := buf[..];
        ghost var done := out;
        out := ReadCluster(cluster, intra, want, buf, out);
        ReadMore(g, sectors, l, p, intra, want, offset, before, mid, buf[..], done);
        intra := 0;
        if out >= buf.Length {
          break;
        }
        cluster := ReadEntry(cluster);
        p := p + 1;
      }
      ReadBound(file, offset, before, buf[..], out);
    }

    // ---------- writing ----------

    /** A part of one sector of a cluster replaced, the sector read first. */
    method WriteSector(cluster: nat, s: nat, secPos: nat, piece: seq<Octet>)
      requires Valid() && InRange(g, cluster) && s < g.sectorsPerCluster && secPos + |piece| <= 512
      modifies this`sectors
      ensures Valid() && PutIn(g, old(sectors), sectors, cluster, 512 * s + secPos, piece)
    {
      hide Data, Proper, Lba, Patched, Overwrite;
      SectorBytes(g, sectors, cluster, s);
      SectorWrite(g, sectors, cluster, s, secPos, piece);
      var lba := Lba(g, cluster);
      var sec := sectors[lba + s];
      sec := Patched(sec, secPos, piece);
      sectors := sectors[lba + s := sec];
    }

    /** The sector loop of write_chain on one cluster. */
    method WriteCluster(cluster: nat, intra: nat, want: nat, data: seq<Octet>, done0: nat) returns (done: nat)
      requires Valid() && InRange(g, cluster) && 0 < want && intra + want <= ClusterSize(g) && done0 + want <= |data|
      modifies this`sectors
      ensures Valid() && done == done0 + want
      ensures PutIn(g, old(sectors), sectors, cluster, intra, data[done0..done])
    {
      hide Room, Proper, PutIn, Min, SectorOf, SectorsTo, WithinSector, At, Span;
      var firstSec := SectorOf(intra);
      var lastByte := intra + want;
      var lastSec := SectorsTo(lastByte);
      ghost var d0 := sectors;
      ghost var pos: nat := intra;
      done := done0;
      var s := firstSec;
      SectorStart(intra, want);
      PutNone(g, d0, cluster, intra);
      assert data[done0..done] == [];
      while s < lastSec
        invariant firstSec <= s <= lastSec && intra <= pos <= lastByte && pos - intra == done - done0
        invariant At(intra, lastByte, s, pos)
        invariant Valid() && PutIn(g, d0, sectors, cluster, intra, data[done0..done])
      {
        SectorStep(g.sectorsPerCluster, intra, want, s, pos);
        var (rangeStart, take) := Span(intra, want, s, |data| - done);
        SpanIs(intra, want, s, pos, |data| - done);
        var secPos := rangeStart - s * 512;
        ghost var d1 := sectors;
        WriteSector(cluster, s, secPos, data[done..done + take]);
        PutMore(g, d0, d1, sectors, cluster, intra, data, done0, done, take);
        pos := pos + take;
        done := done + take;
        s := s + 1;
        if done >= |data| {
          break;
        }
      }
      if s == lastSec {
        SectorEnd(intra, want, pos);
      }
    }

    /** The step to the next cluster of a chain being written, with a new one at its end; 0 when
        none is free. */
    method Advance(cluster: nat, ghost d0: seq<Sector>, first: nat, ghost l0: seq<nat>, ghost l: seq<nat>, ghost p: nat,
                   ghost offset: nat, ghost x: seq<Octet>, ghost need: nat) returns (next: nat, ghost l': seq<nat>)
      requires Good(g, d0, sectors, first, l0, l, offset, x) && p < |l| && cluster == l[p]
      requires p + 1 == |l| ==> |l| < need
      requires Enough(g, sectors, |l|, need)
      modifies this`sectors
      ensures Valid() && Good(g, d0, sectors, first, l0, l', offset, x)
      ensures if next != 0 then p + 1 < |l'| && next == l'[p + 1] else p + 1 == |l'| && Spare(g, sectors) == 0
      ensures Spare(g, sectors) + |l'| == Spare(g, d0) + |l0|
    {
      hide Chain, Table, IsEnd, Room, FileBytes, Grew, Wrote, OthersKept, CopiesAgree, Usable, Proper, InOneSector,
           ScanSafe;
      l' := l;
      ChainNext(g.kind, T(), first, l, p);
      next := ReadEntry(cluster);
      if IsEnd(g.kind, next) || next < 2 {
        ghost var d := sectors;
        EnoughScans(g, d, |l|, need);
        next := Extend(first, l, cluster);
        NoneSpare(g.kind, T());
        if next != 0 {
          GoodExtend(g, d0, d, sectors, first, l0, l, next, offset, x);
          l' := l + [next];
        }
      }
    }

    /** write_chain: the file grows by free clusters as far as it must. */
    method WriteChain(first: nat, offset: nat, data: seq<Octet>, ghost l0: seq<nat>)
        returns (done: nat, ghost l: seq<nat>)
      requires Valid()
      requires first >= 2 ==> Chain(g.kind, T(), first, l0) && l0 != [] && Plain(g.kind, l0)
      requires first >= 2 && data != [] ==> Enough(g, sectors, |l0|, Wanted(g, offset, |data|))
      modifies this`sectors
      ensures Valid() && done <= Reach(g, offset, |data|)
      ensures first < 2 ==> done == 0 && sectors == old(sectors)
      ensures first >= 2 ==> Good(g, old(sectors), sectors, first, l0, l, offset, data[..done])
      ensures first >= 2 ==> done == Reach(g, offset, |data|) || Spare(g, sectors) == 0
      ensures first >= 2 && Wanted(g, offset, |data|) <= old(Spare(g, sectors)) + |l0| ==>
              done == Reach(g, offset, |data|)
    {
      hide Chain, Table, Room, Start, ClusterSize, ClusterOf, WithinCluster, Wanted, Good, Spare, Enough, Plain;
      done := 0;
      l := l0;
      ghost var d0 := sectors;
      assert data[..0] == [];
      if first < 2 {
        return;
      }
      GoodStart(g, sectors, first, l0, offset);
      if |data| == 0 {
        return;
      }
      ghost var need := Wanted(g, offset, |data|);
      var cluster := first;
      var skip := ClusterOf(g, offset);
      Divided(g, offset);
      var iter := 0;
      ghost var p := 0;
      FirstOfChain(g.kind, T(), first, l);
      while skip > 0
        invariant p + skip == ClusterOf(g, offset) && p < |l| && iter == p <= PATIENCE && skip >= 0 && cluster == l[p]
        invariant Valid() && Good(g, d0, sectors, first, l0, l, offset, [])
        invariant Spare(g, sectors) + |l| == Spare(g, d0) + |l0|
      {
        SkipWanted(g, offset, |data|, p + 1);
        StillEnough(g, d0, sectors, |l0|, |l|, need);
        iter := iter + 1;
        if iter > PATIENCE {
          return;
        }
        cluster, l := Advance(cluster, d0, first, l0, l, p, offset, [], need);
        if cluster == 0 {
          return;
        }
        p := p + 1;
        skip := skip - 1;
      }
      ReachPositive(g, offset, |data|);
      done, l := WriteFrom(cluster, WithinCluster(g, offset), data, d0, first, l0, l, p, offset);
    }

    /** The second loop of write_chain. */
    method WriteFrom(cluster0: nat, intra0: nat, data: seq<Octet>, ghost d0: seq<Sector>, first: nat,
                     ghost l0: seq<nat>, ghost l1: seq<nat>,
                     ghost p0: nat, ghost offset: nat) returns (done: nat, ghost l: seq<nat>)
      requires Valid() && |data| > 0 && p0 < |l1| && cluster0 == l1[p0] && p0 <= PATIENCE
      requires Good(g, d0, sectors, first, l0, l1, offset, [])
      requires p0 == ClusterOf(g, offset) && intra0 == WithinCluster(g, offset)
      requires Sound(g, d0) && Enough(g, d0, |l0|, Wanted(g, offset, |data|))
      modifies this`sectors
      ensures Valid() && done <= Reach(g, offset, |data|)
      ensures Good(g, d0, sectors, first, l0, l, offset, data[..done])
      ensures done == Reach(g, offset, |data|) || Spare(g, sectors) == 0
      ensures Wanted(g, offset, |data|) <= Spare(g, d0) + |l0| ==> done == Reach(g, offset, |data|)
    {
      hide Chain, Table, Room, Start, ClusterSize, Wanted, Good, Spare, PutIn, Enough, ClusterOf, WithinCluster, Reach;
      ghost var need := Wanted(g, offset, |data|);
      ghost var reach := Reach(g, offset, |data|);
      Divided(g, offset);
      StartAdds(g, p0, PATIENCE);
      ReachPositive(g, offset, |data|);
      var cluster := cluster0;
      var intra := intra0;
      done := 0;
      l := l1;
      var iter := 0;
      ghost var p := p0;
      GoodCount(g, d0, sectors, first, l0, l, offset, []);
      assert data[..0] == [];
      while done < |data|
        invariant Valid() && p0 <= p < |l| && iter == p - p0 <= PATIENCE && cluster == l[p] && done <= |data|
        invariant 0 <= intra < ClusterSize(g) && Start(g, p) + intra == offset + done && (p == p0 || intra == 0)
        invariant Good(g, d0, sectors, first, l0, l, offset, data[..done])
        invariant Spare(g, sectors) + |l| == Spare(g, d0) + |l0|
        invariant done <= reach
        decreases |data| - done
      {
        iter := iter + 1;
        StartAdds(g, p, p0 + PATIENCE - p);
        if iter > PATIENCE {
          break;
        }
        NextStart(g, p);
        StartAdds(g, p + 1, p0 + PATIENCE - p - 1);
        var avail := ClusterSize(g) - intra;
        var want := if |data| - done <= avail then |data| - done else avail;
        ghost var d1 := sectors;
        ghost var before := done;
        GoodInRange(g, d0, sectors, first, l0, l, offset, data[..done], p);
        done := WriteCluster(cluster, intra, want, data, done);
        assert data[..before] + data[before..done] == data[..done];
        WroteCluster(g, d0, d1, sectors, first, l0, l, p, intra, offset, data[..before], data[before..done]);
        intra := 0;
        if done >= |data| {
          break;
        }
        NextWanted(g, offset, |data|, p + 1, done);
        StillEnough(g, d0, sectors, |l0|, |l|, need);
        cluster, l := Advance(cluster, d0, first, l0, l, p, offset, data[..done], need);
        if cluster == 0 {
          break;
        }
        p := p + 1;
      }
    }
  }

  /** The scan for a free cluster cannot leave the table, or the file has or finds need clusters. */
  ghost predicate Enough(g: Geometry, d: seq<Sector>, have: nat, need: nat)
    requires Sound(g, d)
  {
    (g.clusters == Limit(g.kind) && PlainBelow(g.kind, g.clusters)) || Spare(g, d) + have >= need
  }

  lemma EnoughScans(g: Geometry, d: seq<Sector>, have: nat, need: nat)
    requires Sound(g, d) && Enough(g, d, have, need) && have < need
    ensures ScanSafe(g.kind, Table(g, d))
  {
    hide Table, Room, PlainBelow;
  }

  lemma StillEnough(g: Geometry, d0: seq<Sector>, d: seq<Sector>, have0: nat, have: nat, need: nat)
    requires Sound(g, d0) && Sound(g, d) && Enough(g, d0, have0, need) && Spare(g, d) + have == Spare(g, d0) + have0
    ensures Enough(g, d, have, need)
  {
    hide Table, Room, PlainBelow;
  }

  lemma NoneSpare(k: Kind, t: seq<nat>)
    ensures FreeClusters(t) == {} ==> |Usable(k, t)| == 0
  {
    hide PlainBelow;
    if FreeClusters(t) == {} {
      assert Usable(k, t) == {};
    }
  }

  /** The clusters that a write of n bytes at an offset makes the file have: those up to the last
      byte reached, and one more where a loop bound cuts the write short. */
  function Wanted(g: Geometry, offset: nat, n: nat): nat
    requires g.sectorsPerCluster > 0
  {
    if ClusterOf(g, offset) > PATIENCE then PATIENCE + 1
    else
      ReachInside(g, WithinCluster(g, offset));
      Need(g, offset + Min(n, Start(g, PATIENCE) - WithinCluster(g, offset) + 1))
  }

  lemma SkipWanted(g: Geometry, offset: nat, n: nat, p: nat)
    requires g.sectorsPerCluster > 0 && n > 0 && p <= ClusterOf(g, offset)
    ensures p <= PATIENCE ==> p < Wanted(g, offset, n)
  {
    hide ClusterOf, Need, WithinCluster, Start, ClusterSize;
    if ClusterOf(g, offset) <= PATIENCE {
      ReachInside(g, WithinCluster(g, offset));
      Before(g, offset, Min(n, Start(g, PATIENCE) - WithinCluster(g, offset) + 1), p);
    }
  }

  lemma NextWanted(g: Geometry, offset: nat, n: nat, p: nat, done: nat)
    requires g.sectorsPerCluster > 0 && ClusterOf(g, offset) <= PATIENCE && Start(g, p) == offset + done
    requires done < n && done <= Reach(g, offset, n)
    ensures p < Wanted(g, offset, n)
  {
    hide ClusterOf, Need, WithinCluster, Start, ClusterSize;
    ReachInside(g, WithinCluster(g, offset));
    NeedReaches(g, offset + Min(n, Start(g, PATIENCE) - WithinCluster(g, offset) + 1), p);
  }

  lemma FirstOfChain(k: Kind, t: seq<nat>, first: nat, l: seq<nat>)
    requires Chain(k, t, first, l) && l != []
    ensures l[0] == first
  {
  }

  /** A cluster that starts at or before offset is needed to reach past it. */
  lemma Before(g: Geometry, offset: nat, size: nat, p: nat)
    requires g.sectorsPerCluster > 0 && size > 0 && p <= ClusterOf(g, offset)
    ensures p < Need(g, offset + size)
  {
    hide ClusterOf, Need;
    Divided(g, offset);
    Distribute(p, ClusterOf(g, offset) - p, ClusterSize(g));
    NeedReaches(g, offset + size, p);
  }

  lemma GoodCount(g: Geometry, d0: seq<Sector>, d: seq<Sector>, first: nat, l0: seq<nat>, l: seq<nat>, offset: nat,
                  x: seq<Octet>)
    requires Good(g, d0, d, first, l0, l, offset, x)
    ensures Sound(g, d0) && Sound(g, d) && Spare(g, d) + |l| == Spare(g, d0) + |l0|
  {
  }

  lemma GoodInRange(g: Geometry, d0: seq<Sector>, d: seq<Sector>, first: nat, l0: seq<nat>, l: seq<nat>, offset: nat,
                    x: seq<Octet>, p: nat)
    requires Good(g, d0, d, first, l0, l, offset, x) && p < |l|
    ensures InRange(g, l[p])
  {
  }

  /** A cluster's worth of bytes put where the last ones ended. */
  lemma WroteCluster(g: Geometry, d0: seq<Sector>, d1: seq<Sector>, d: seq<Sector>, first: nat, l0: seq<nat>,
                     l: seq<nat>, p: nat, at: nat,
                     offset: nat, x: seq<Octet>, piece: seq<Octet>)
    requires Good(g, d0, d1, first, l0, l, offset, x) && p < |l| && Start(g, p) + at == offset + |x|
    requires PutIn(g, d1, d, l[p], at, piece)
    ensures Good(g, d0, d, first, l0, l, offset, x + piece)
    ensures Sound(g, d0) && Sound(g, d) && Spare(g, d) + |l| == Spare(g, d0) + |l0|
  {
    hide Good, Data, Room, Proper, Start, Overwrite;
    GoodWrite(g, d0, d1, d, first, l0, l, p, at, offset, x, piece);
    GoodCount(g, d0, d, first, l0, l, offset, x + piece);
  }

  /** d' is d with bytes put into one cluster at a position, and nothing else changed. */
  ghost predicate PutIn(g: Geometry, d: seq<Sector>, d': seq<Sector>, c: nat, at: nat, bytes: seq<Octet>) {
    && Sound(g, d) && Sound(g, d') && InRange(g, c) && at + |bytes| <= ClusterSize(g)
    && d'[..g.dataStart] == d[..g.dataStart]
    && Data(g, d', c) == Overwrite(Data(g, d, c), at, bytes)
    && forall c' :: InRange(g, c') && c' != c ==> Data(g, d', c') == Data(g, d, c')
  }

  lemma PutNone(g: Geometry, d: seq<Sector>, c: nat, at: nat)
    requires Sound(g, d) && InRange(g, c) && at <= ClusterSize(g)
    ensures PutIn(g, d, d, c, at, [])
  {
    hide Room, Proper;
    assert Overwrite(Data(g, d, c), at, []) == Data(g, d, c);
  }

  lemma PutMore(g: Geometry, d0: seq<Sector>, d1: seq<Sector>, d: seq<Sector>, c: nat, at: nat, data: seq<Octet>,
                from: nat, done: nat, take: nat)
    requires from <= done && done + take <= |data|
    requires PutIn(g, d0, d1, c, at, data[from..done]) && PutIn(g, d1, d, c, at + done - from, data[done..done + take])
    ensures PutIn(g, d0, d, c, at, data[from..done + take])
  {
    hide Data, Proper, Room, ClusterSize;
    OverwriteTwice(Data(g, d0, c), at, data[from..done], data[done..done + take]);
    assert data[from..done] + data[done..done + take] == data[from..done + take];
  }

  /** The part of sector s that lies in the range, as the code computes it. */
  function Span(intra: nat, want: nat, s: nat, left: nat): (int, int) {
    var secOff := s * 512;
    var rangeStart := if intra >= secOff then intra else secOff;
    var rangeEnd := Min(intra + want, secOff + 512);
    (rangeStart, Min(rangeEnd - rangeStart, left))
  }

  lemma SpanIs(intra: nat, want: nat, s: nat, pos: nat, left: nat)
    requires 512 * s <= pos < intra + want && pos < 512 * s + 512 && left >= intra + want - pos
    requires intra <= pos && (pos == intra || pos == 512 * s)
    ensures var (start, take) := Span(intra, want, s, left);
            start == pos && take > 0 && pos + take == Min(512 * (s + 1), intra + want) && pos + take <= intra + want
            && take <= left && pos - 512 * s + take <= 512
  {
  }

  lemma ReadBound(file: seq<Octet>, offset: nat, before: seq<Octet>, after: seq<Octet>, out: nat)
    requires ReadOut(file, offset, before, after, out)
    ensures out > 0 ==> offset + out <= |file|
  {
  }

  /** The first out bytes of the buffer are those of the file at offset; the rest is as it was. */
  ghost predicate ReadOut(file: seq<Octet>, offset: nat, before: seq<Octet>, after: seq<Octet>, out: nat) {
    && |after| == |before| && out <= |before| && after[out..] == before[out..]
    && (out > 0 ==> offset + out <= |file| && after[..out] == file[offset..offset + out])
  }

  /** How much of a file there is to read. */
  function Available(length: nat, offset: nat, size: nat): nat {
    if offset >= length then 0 else if size <= length - offset then size else length - offset
  }

  lemma ReadNone(file: seq<Octet>, offset: nat, before: seq<Octet>)
    ensures ReadOut(file, offset, before, before, 0)
  {
  }

  ghost function ChainFile(g: Geometry, d: seq<Sector>, first: nat, l: seq<nat>): (b: seq<Octet>)
    requires Sound(g, d) && Chain(g.kind, Table(g, d), first, l)
    ensures AllInRange(g, l) && b == FileBytes(g, d, l)
  {
    ChainInRange(g, d, first, l);
    FileBytes(g, d, l)
  }

  /** Where a walk along a chain stands: at its next cluster, or at the end. */
  lemma ChainHead(k: Kind, t: seq<nat>, cluster: nat, l: seq<nat>, p: nat)
    requires p <= |l| && Chain(k, t, cluster, l[p..])
    ensures p == |l| <==> IsEnd(k, cluster) || cluster < 2
    ensures p < |l| ==> cluster == l[p] && 2 <= cluster < |t| && Chain(k, t, t[cluster], l[p + 1..])
  {
    hide IsEnd;
    if p < |l| {
      assert l[p..][1..] == l[p + 1..];
    } else {
      assert l[p..] == [];
    }
  }

  lemma PastEnd(g: Geometry, d: seq<Sector>, l: seq<nat>, offset: nat, p: nat)
    requires Sound(g, d) && AllInRange(g, l) && p == |l| && p < ClusterOf(g, offset)
    ensures offset >= |FileBytes(g, d, l)|
  {
    hide Room, FileBytes, ClusterOf;
    FileLength(g, d, l);
    Divided(g, offset);
    Distribute(p, ClusterOf(g, offset) - p, ClusterSize(g));
  }

  lemma ReadMore(g: Geometry, d: seq<Sector>, l: seq<nat>, p: nat, intra: nat, want: nat, offset: nat,
                 before: seq<Octet>, mid: seq<Octet>, after: seq<Octet>, out: nat)
    requires Sound(g, d) && AllInRange(g, l) && p < |l| && intra + want <= ClusterSize(g)
    requires Start(g, p) + intra == offset + out
    requires ReadOut(FileBytes(g, d, l), offset, before, mid, out)
    requires Filled(mid, after, out, Data(g, d, l[p])[intra..intra + want])
    ensures ReadOut(FileBytes(g, d, l), offset, before, after, out + want)
  {
    hide Data, Room, Proper, FileBytes, Start, ClusterSize;
    FileSlice(g, d, l, p);
    var file := FileBytes(g, d, l);
    var piece := Data(g, d, l[p])[intra..intra + want];
    var o := offset + out;
    SliceOfSlice(file, Start(g, p), ClusterSize(g), intra, want);
    PieceRead(file, offset, before, mid, after, out, want);
  }

  lemma SliceOfSlice(b: seq<Octet>, at: nat, n: nat, x: nat, w: nat)
    requires at + n <= |b| && x + w <= n
    ensures b[at..at + n][x..x + w] == b[at + x..at + x + w]
  {
    var y, z := b[at..at + n][x..x + w], b[at + x..at + x + w];
    forall k | 0 <= k < w ensures y[k] == z[k] {
      assert y[k] == b[at..at + n][x + k];
    }
  }

  lemma PieceRead(file: seq<Octet>, offset: nat, before: seq<Octet>, mid: seq<Octet>, after: seq<Octet>, out: nat,
                  want: nat)
    requires ReadOut(file, offset, before, mid, out) && offset + out + want <= |file|
    requires Filled(mid, after, out, file[offset + out..offset + out + want])
    ensures ReadOut(file, offset, before, after, out + want)
  {
    assert after[out + want..] == mid[out..][want..] == before[out..][want..] == before[out + want..];
    assert after[..out + want] == mid[..out] + file[offset + out..offset + out + want];
    if out == 0 {
      assert mid[..out] == file[offset..offset + out];
    }
  }

  function SectorOf(x: nat): nat { x / 512 }
  function WithinSector(x: nat): (r: nat) ensures r < 512 { x % 512 }
  function SectorsTo(x: nat): nat { (x + 512 - 1) / 512 }

  /** Where the loop over the sectors of a cluster stands at sector s. */
  ghost predicate At(intra: nat, lastByte: nat, s: nat, pos: nat) {
    intra <= pos <= lastByte && pos == (if s == SectorOf(intra) then intra else Min(512 * s, lastByte))
  }

  lemma SectorStart(intra: nat, want: nat)
    requires want > 0
    ensures SectorOf(intra) < SectorsTo(intra + want) && At(intra, intra + want, SectorOf(intra), intra)
  {
  }

  lemma SectorStep(spc: nat, intra: nat, want: nat, s: nat, pos: nat)
    requires want > 0 && intra + want <= 512 * spc && SectorOf(intra) <= s < SectorsTo(intra + want) &&
             At(intra, intra + want, s, pos)
    ensures s < spc && 512 * s <= pos < intra + want && pos < 512 * s + 512
    ensures pos == 512 * s + (if s == SectorOf(intra) then WithinSector(intra) else 0)
    ensures pos == intra || pos == 512 * s
    ensures At(intra, intra + want, s + 1, Min(512 * (s + 1), intra + want))
  {
    assert 512 * s < intra + want;

  }

  /** How many bytes the code takes from a sector. */
  function Take(lastByte: nat, s: nat, secStart: nat, left: nat): int {
    Min(Min(lastByte - s * 512, 512 - secStart), left)
  }

  /** It is what is left of the sector or of the range. */
  lemma TakeIs(spc: nat, intra: nat, want: nat, s: nat, pos: nat, left: nat, secStart: nat)
    requires intra + want <= 512 * spc && 512 * s <= pos < intra + want && s < spc && pos == 512 * s + secStart &&
             secStart < 512
    requires left >= intra + want - pos && (left == intra + want - pos || intra + want == 512 * spc)
    ensures var take := Take(intra + want, s, secStart, left);
            take > 0 && pos + take == Min(512 * (s + 1), intra + want) && pos + take <= intra + want && take <= left &&
                secStart + take <= 512
  {
  }

  lemma SubSector(whole: seq<Octet>, sec: Sector, s: nat, secStart: nat, take: nat)
    requires 512 * s + 512 <= |whole| && sec == whole[512 * s..512 * s + 512] && secStart + take <= 512
    ensures sec[secStart..secStart + take] == whole[512 * s + secStart..512 * s + secStart + take]
  {
    var x, y := sec[secStart..secStart + take], whole[512 * s + secStart..512 * s + secStart + take];
    forall k | 0 <= k < take ensures x[k] == y[k] {
      assert x[k] == whole[512 * s..512 * s + 512][secStart + k];
    }
  }

  lemma SectorEnd(intra: nat, want: nat, pos: nat)
    requires want > 0 && At(intra, intra + want, SectorsTo(intra + want), pos)
    ensures pos == intra + want
  {
  }

  /** after is before with bytes put at a position. */
  ghost predicate Filled(before: seq<Octet>, after: seq<Octet>, at: nat, bytes: seq<Octet>) {
    at + |bytes| <= |before| && after == before[..at] + bytes + before[at + |bytes|..]
  }

  ghost predicate FilledFrom(before: seq<Octet>, after: seq<Octet>, at: nat, whole: seq<Octet>, from: nat, to: nat) {
    from <= to <= |whole| && Filled(before, after, at, whole[from..to])
  }

  lemma FilledNone(before: seq<Octet>, at: nat, whole: seq<Octet>, from: nat)
    requires at <= |before| && from <= |whole|
    ensures FilledFrom(before, before, at, whole, from, from)
  {
  }

  lemma FilledMore(before: seq<Octet>, mid: seq<Octet>, after: seq<Octet>, at: nat, whole: seq<Octet>, from: nat,
                   pos: nat, take: nat)
    requires from <= pos && FilledFrom(before, mid, at, whole, from, pos)
    requires FilledFrom(mid, after, at + pos - from, whole, pos, pos + take)
    ensures FilledFrom(before, after, at, whole, from, pos + take)
  {
    var x, y := whole[from..pos], whole[pos..pos + take];
    assert x + y == whole[from..pos + take];
    assert |mid| == |before|;
    assert mid[..at + |x|] == before[..at] + x;
  }

  method CopyInto(buf: array<Octet>, at: nat, bytes: seq<Octet>)
    requires at + |bytes| <= buf.Length
    modifies buf
    ensures Filled(old(buf[..]), buf[..], at, bytes)
  {
    for k := 0 to |bytes|
      invariant forall j :: 0 <= j < buf.Length && !(at <= j < at + k) ==> buf[j] == old(buf[j])
      invariant forall j :: 0 <= j < k ==> buf[at + j] == bytes[j]
    {
      buf[at + k] := bytes[k];
    }
  }

  /** While no zero entry has been met, the scan meets no straddling one. */
  lemma ScanGoesOn(g: Geometry, d: seq<Sector>, cl: nat)
    requires g.kind == Fat12 ==> exists c :: 2 <= c < 341 && ReadsZero(g, d, c)
    requires forall c :: 2 <= c < cl ==> !ReadsZero(g, d, c)
    ensures InOneSector(g.kind, cl)
  {
    hide InOneSector, Seen;
    Straddles(g.kind, cl);
  }

  /** The scan ends inside the table exactly when a cluster is free or nothing behind reads zero. */
  lemma FoundInside(g: Geometry, d: seq<Sector>, nc: nat)
    requires Proper(g) && |d| >= g.dataStart
    requires g.kind == Fat12 ==> exists c :: 2 <= c < 341 && ReadsZero(g, d, c)
    requires if nc == 0 then forall c :: 2 <= c < Limit(g.kind) ==> !ReadsZero(g, d, c)
             else 2 <= nc < Limit(g.kind) && ReadsZero(g, d, nc) && forall c :: 2 <= c < nc ==> !ReadsZero(g, d, c)
    ensures nc < g.clusters <==>
            FreeClusters(Table(g, d)) != {} || forall c :: g.clusters <= c < Limit(g.kind) ==> !ReadsZero(g, d, c)
    ensures nc < g.clusters ==> nc == 0 || Table(g, d)[nc] == 0
    ensures forall c :: 2 <= c < g.clusters && (nc == 0 || c < nc) ==> Table(g, d)[c] != 0
  {
    hide InOneSector, Seen, Table;
    forall c | 2 <= c < g.clusters && (nc == 0 || c < nc) ensures Table(g, d)[c] != 0 {
      ScanGoesOn(g, d, c);
      SeenInside(g, d, c);
      assert !ReadsZero(g, d, c);
    }
    if 0 < nc < g.clusters {
      SeenInside(g, d, nc);
      assert nc in FreeClusters(Table(g, d));
    }
  }

  /** A safe scan finds a free cluster of the table, or there is none. */
  lemma SafeScan(g: Geometry, d: seq<Sector>)
    requires Proper(g) && |d| >= g.dataStart && ScanSafe(g.kind, Table(g, d))
    ensures g.kind == Fat12 ==> exists c :: 2 <= c < 341 && ReadsZero(g, d, c)
  {
    hide InOneSector, Seen, Table;
    if g.kind == Fat12 {
      PlainBelowIs(g.kind, g.clusters);
      var c :| c in Usable(g.kind, Table(g, d));
      PlainBelowIs(g.kind, c + 1);
      assert InOneSector(g.kind, c);
      SeenInside(g, d, c);
      assert ReadsZero(g, d, c);
    }
  }

  lemma InsideSafe(g: Geometry, d: seq<Sector>)
    requires Proper(g) && |d| >= g.dataStart && ScanSafe(g.kind, Table(g, d))
    ensures FreeClusters(Table(g, d)) != {} || forall c :: g.clusters <= c < Limit(g.kind) ==> !ReadsZero(g, d, c)
  {
    hide InOneSector, Seen, Table;
    if Usable(g.kind, Table(g, d)) != {} {
      var f :| f in Usable(g.kind, Table(g, d));
      assert f in FreeClusters(Table(g, d));
    }
  }

  /** What it finds is usable. */
  lemma SafeFind(g: Geometry, d: seq<Sector>, nc: nat)
    requires Proper(g) && |d| >= g.dataStart && ScanSafe(g.kind, Table(g, d)) && nc < g.clusters
    requires nc == 0 || (2 <= nc && Table(g, d)[nc] == 0)
    requires forall c :: 2 <= c < g.clusters && (nc == 0 || c < nc) ==> Table(g, d)[c] != 0
    ensures if nc == 0 then FreeClusters(Table(g, d)) == {} else nc in Usable(g.kind, Table(g, d))
  {
    hide InOneSector, Table;
    if nc == 0 {
      assert FreeClusters(Table(g, d)) == {};
    } else {
      FirstUsable(g.kind, Table(g, d), nc);
    }
  }

  lemma EntryFits(g: Geometry, nc: nat)
    requires Proper(g) && nc < g.clusters
    ensures nc % Modulus(g.kind) == nc && EndMark(g.kind) % Modulus(g.kind) == EndMark(g.kind)
  {
  }
}
