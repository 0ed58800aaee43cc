/** The file allocation table on disk: where the entry of a cluster lies for the three
    widths, how it is packed, and what one write changes. */
module FatTable {
  import opened Units

  datatype Kind = Fat12 | Fat16 | Fat32

  /** The fields of the parameter block that the chain layer uses, for 512-byte sectors. */
  datatype Geometry = Geometry(kind: Kind, reserved: nat, fatSectors: nat, mirrored: bool,
                               dataStart: nat, sectorsPerCluster: nat, clusters: nat)

  /** alloc_cluster scans the clusters below this number. */
  function Limit(k: Kind): nat {
    match k
    case Fat12 => 0x0FF0
    case Fat16 => 0xFFF0
    case Fat32 => 0x0FFF_FFF0
  }

  function Modulus(k: Kind): nat {
    match k
    case Fat12 => 0x1000
    case Fat16 => 0x1_0000
    case Fat32 => 0x1000_0000
  }

  /** fat_eoc */
  function EndMark(k: Kind): nat { Modulus(k) - 1 }

  /** fat_is_eoc */
  predicate IsEnd(k: Kind, v: nat) { v >= Modulus(k) - 8 }

  /** Of the 2^12, 2^16 or 2^28 values of an entry the last sixteen are no cluster, the last eight
      end a chain, and the code writes the very last. */
  lemma Marks(k: Kind, v: nat)
    ensures var values := if k == Fat12 then 4096 else if k == Fat16 then 65536 else 268435456;
            && Limit(k) == values - 16 && EndMark(k) == values - 1 && Modulus(k) == values
            && (IsEnd(k, v) <==> v >= values - 8)
  {
  }

  /** The byte at which the entry of a cluster starts in the table. */
  function Offset(k: Kind, c: nat): nat {
    match k
    case Fat12 => c + c / 2
    case Fat16 => c * 2
    case Fat32 => c * 4
  }

  function Width(k: Kind): nat { if k == Fat32 then 4 else 2 }

  /** The last byte of that entry. */
  function Last(k: Kind, c: nat): nat { Offset(k, c) + Width(k) - 1 }

  /** The entry of a cluster lies inside one sector. */
  predicate InOneSector(k: Kind, c: nat) { Offset(k, c) % 512 + Width(k) <= 512 }

  /** An entry straddles two sectors exactly for twelve-bit entries of the clusters 341 and 682
      of every 1024. */
  lemma Straddles(k: Kind, c: nat)
    ensures !InOneSector(k, c) <==> k == Fat12 && (c % 1024 == 341 || c % 1024 == 682)
  {
    match k
    case Fat12 => OddOffset(c);
    case Fat16 => EvenOffset(c);
    case Fat32 => QuadOffset(c);
  }

  lemma OddOffset(c: nat)
    ensures (c + c / 2) % 512 == 511 <==> c % 1024 == 341 || c % 1024 == 682
  {
    var q, r := c / 1024, c % 1024;
    assert c == 1024 * q + r;
    assert c / 2 == 512 * q + r / 2;
    assert c + c / 2 == 512 * (3 * q) + (r + r / 2);
    Folds(3 * q, r + r / 2);
    Solutions(r);
  }

  lemma Folds(q: nat, x: nat)
    ensures (512 * q + x) % 512 == x % 512
  {
  }

  lemma Solutions(r: nat)
    requires r < 1024
    ensures (r + r / 2) % 512 == 511 <==> r == 341 || r == 682
  {
    var x := r + r / 2;
    assert x < 1536 && (x % 512 == 511 <==> x == 511 || x == 1023 || x == 1535);
  }

  lemma EvenOffset(c: nat)
    ensures c * 2 % 512 <= 510
  {
    var q, r := c / 256, c % 256;
    assert c * 2 == 512 * q + 2 * r;
  }

  lemma QuadOffset(c: nat)
    ensures c * 4 % 512 <= 508
  {
    var q, r := c / 128, c % 128;
    assert c * 4 == 512 * q + 4 * r;
  }

  ghost predicate Proper(g: Geometry) {
    && g.reserved + (if g.mirrored then 2 else 1) * g.fatSectors <= g.dataStart
    && 0 < g.sectorsPerCluster
    && 2 <= g.clusters <= Limit(g.kind)
    && Last(g.kind, g.clusters - 1) < 512 * g.fatSectors
  }

  // ---------- bytes of the table ----------

  /** Byte x of the table whose first sector is base. */
  function ByteAt(d: seq<Sector>, base: nat, x: nat): Octet
    requires base + x / 512 < |d|
  {
    d[base + x / 512][x % 512]
  }

  function Patched(s: Sector, at: nat, bytes: seq<Octet>): Sector
    requires at + |bytes| <= 512
  {
    s[..at] + bytes + s[at + |bytes|..]
  }

  /** The sector of byte x, with new bytes from there on. */
  function Patch(d: seq<Sector>, base: nat, x: nat, bytes: seq<Octet>): seq<Sector>
    requires base + x / 512 < |d| && x % 512 + |bytes| <= 512
  {
    d[base + x / 512 := Patched(d[base + x / 512], x % 512, bytes)]
  }

  lemma PatchedByte(d: seq<Sector>, base: nat, x: nat, bytes: seq<Octet>, y: nat)
    requires base + x / 512 < |d| && x % 512 + |bytes| <= 512 && base + y / 512 < |d|
    ensures ByteAt(Patch(d, base, x, bytes), base, y) == if x <= y < x + |bytes| then bytes[y - x]
            else ByteAt(d, base, y)
  {
    var q, r := x / 512, x % 512;
    var q', r' := y / 512, y % 512;
    assert x == 512 * q + r && y == 512 * q' + r';
    if q == q' {
    } else {
      assert !(x <= y < x + |bytes|);
    }
  }

  // ---------- packing ----------

  /** Two bytes, the low one first. */
  function Join(lo: Octet, hi: Octet): (n: nat)
    ensures n < 0x1_0000
  {
    (lo as int) + 256 * (hi as int)
  }

  function Join4(a: Octet, b: Octet, c: Octet, d: Octet): (n: nat)
    ensures n < 0x1_0000_0000
  {
    Join(a, b) + 0x1_0000 * Join(c, d)
  }

  function Lo(n: nat): Octet { n % 256 }
  function Hi(n: nat): Octet { n / 256 % 256 }

  lemma JoinBack(n: nat)
    requires n < 0x1_0000
    ensures Join(Lo(n), Hi(n)) == n
  {
  }

  lemma Join4Back(l: nat, h: nat)
    requires l < 0x1_0000 && h < 0x1_0000
    ensures Join4(Lo(l), Hi(l), Lo(h), Hi(h)) == l + 0x1_0000 * h
  {
    hide Join, Lo, Hi;
    JoinBack(l);
    JoinBack(h);
  }

  lemma LowHalf(n: nat)
    ensures Lo(n % 0x1_0000) == Lo(n) && Hi(n % 0x1_0000) == Hi(n)
  {
    var h, l := n / 0x1_0000, n % 0x1_0000;
    assert n == 256 * (256 * h) + l;
    assert n / 256 == 256 * h + l / 256;
  }

  /** The entry of cluster c in a pair of bytes: the low or the high twelve bits. */
  function Get12(c: nat, n: nat): nat { if c % 2 == 0 then n % 0x1000 else n / 16 }

  /** The pair with that entry replaced and the other four bits kept. */
  function Set12(c: nat, n: nat, v: nat): nat {
    if c % 2 == 0 then n / 0x1000 * 0x1000 + v % 0x1000 else n % 16 + v % 0x1000 * 16
  }

  lemma Set12Back(c: nat, n: nat, v: nat)
    requires n < 0x1_0000
    ensures Set12(c, n, v) < 0x1_0000 && Get12(c, Set12(c, n, v)) == v % 0x1000
  {
  }

  function Get32(n: nat): nat { n % 0x1000_0000 }

  /** The low 28 bits replaced, the reserved top four kept. */
  function Set32(n: nat, v: nat): nat { n / 0x1000_0000 * 0x1000_0000 + v % 0x1000_0000 }

  lemma Set32Back(n: nat, v: nat)
    requires n < 0x1_0000_0000
    ensures Set32(n, v) < 0x1_0000_0000 && Get32(Set32(n, v)) == v % 0x1000_0000
    ensures Set32(n, v) / 0x1000_0000 == n / 0x1000_0000
  {
  }

  function Pair(d: seq<Sector>, base: nat, x: nat): nat
    requires base + (x + 1) / 512 < |d|
  {
    Join(ByteAt(d, base, x), ByteAt(d, base, x + 1))
  }

  function Quad(d: seq<Sector>, base: nat, x: nat): nat
    requires base + (x + 3) / 512 < |d|
  {
    Join4(ByteAt(d, base, x), ByteAt(d, base, x + 1), ByteAt(d, base, x + 2), ByteAt(d, base, x + 3))
  }

  /** fat_read_entry on the table at base. */
  function Entry(k: Kind, d: seq<Sector>, base: nat, c: nat): nat
    requires base + Last(k, c) / 512 < |d|
  {
    var x := Offset(k, c);
    match k
    case Fat12 => Get12(c, Pair(d, base, x))
    case Fat16 => Pair(d, base, x)
    case Fat32 => Get32(Quad(d, base, x))
  }

  function Two(n: nat): (b: seq<Octet>) ensures |b| == 2 { [Lo(n), Hi(n)] }

  function Four(n: nat): (b: seq<Octet>) ensures |b| == 4 { Two(n) + Two(n / 0x1_0000) }

  /** The bytes that fat_write_entry puts in place of an entry. */
  function NewBytes(k: Kind, d: seq<Sector>, base: nat, c: nat, v: nat): (b: seq<Octet>)
    requires base + Last(k, c) / 512 < |d|
    ensures |b| == Width(k)
  {
    var x := Offset(k, c);
    match k
    case Fat12 => Two(Set12(c, Pair(d, base, x), v))
    case Fat16 => Two(v % 0x1_0000)
    case Fat32 => Four(Set32(Quad(d, base, x), v))
  }

  /** The table after a write. */
  function WithEntry(k: Kind, d: seq<Sector>, base: nat, c: nat, v: nat): (d': seq<Sector>)
    requires base + Last(k, c) / 512 < |d| && InOneSector(k, c)
    ensures |d'| == |d|
  {
    Patch(d, base, Offset(k, c), NewBytes(k, d, base, c, v))
  }

  /** What the bytes of the table are after a write. */
  lemma WrittenByte(k: Kind, d: seq<Sector>, base: nat, c: nat, v: nat, y: nat)
    requires base + Last(k, c) / 512 < |d| && InOneSector(k, c) && base + y / 512 < |d|
    ensures var x := Offset(k, c);
            ByteAt(WithEntry(k, d, base, c, v), base, y)
            == if x <= y < x + Width(k) then NewBytes(k, d, base, c, v)[y - x] else ByteAt(d, base, y)
  {
    hide NewBytes, ByteAt, Patch;
    PatchedByte(d, base, Offset(k, c), NewBytes(k, d, base, c, v), y);
  }

  /** Reading an entry after writing it gives the value, cut to the width of the table. */
  lemma ReadWritten(k: Kind, d: seq<Sector>, base: nat, c: nat, v: nat)
    requires base + Last(k, c) / 512 < |d| && InOneSector(k, c)
    ensures Entry(k, WithEntry(k, d, base, c, v), base, c) == v % Modulus(k)
  {
    hide ByteAt, WithEntry, Offset, Join, Lo, Hi, Get12, Set12, Get32, Set32, Join4;
    var x := Offset(k, c);
    WrittenByte(k, d, base, c, v, x);
    WrittenByte(k, d, base, c, v, x + 1);
    match k
    case Fat12 =>
      Set12Back(c, Pair(d, base, x), v);
      JoinBack(Set12(c, Pair(d, base, x), v));
    case Fat16 =>
      JoinBack(v % 0x1_0000);
    case Fat32 =>
      WrittenByte(k, d, base, c, v, x + 2);
      WrittenByte(k, d, base, c, v, x + 3);
      Set32Back(Quad(d, base, x), v);
      var n := Set32(Quad(d, base, x), v);
      LowHalf(n);
      Join4Back(n % 0x1_0000, n / 0x1_0000);
  }

  /** The reserved top four bits of a wide entry keep their value. */
  lemma ReservedBitsKept(d: seq<Sector>, base: nat, c: nat, v: nat)
    requires base + Last(Fat32, c) / 512 < |d| && InOneSector(Fat32, c)
    ensures Quad(WithEntry(Fat32, d, base, c, v), base, Offset(Fat32, c)) / 0x1000_0000
            == Quad(d, base, Offset(Fat32, c)) / 0x1000_0000
  {
    hide ByteAt, WithEntry, Offset, Join4, Lo, Hi, Set32;
    var x := Offset(Fat32, c);
    WrittenByte(Fat32, d, base, c, v, x);
    WrittenByte(Fat32, d, base, c, v, x + 1);
    WrittenByte(Fat32, d, base, c, v, x + 2);
    WrittenByte(Fat32, d, base, c, v, x + 3);
    Set32Back(Quad(d, base, x), v);
    var n := Set32(Quad(d, base, x), v);
    LowHalf(n);
    Join4Back(n % 0x1_0000, n / 0x1_0000);
  }

  /** Entries of two clusters share a byte only where a table of twelve-bit entries packs
      an even cluster and the next one. */
  lemma Overlap(k: Kind, c: nat, c': nat)
    requires c != c'
    ensures Offset(k, c) + Width(k) <= Offset(k, c') || Offset(k, c') + Width(k) <= Offset(k, c) ||
            (k == Fat12 && c % 2 == 0 && c' == c + 1 && Offset(k, c') == Offset(k, c) + 1) ||
            (k == Fat12 && c' % 2 == 0 && c == c' + 1 && Offset(k, c) == Offset(k, c') + 1)
  {
  }

  /** Every other entry reads as before. */
  lemma ReadOther(k: Kind, d: seq<Sector>, base: nat, c: nat, v: nat, c': nat)
    requires base + Last(k, c) / 512 < |d| && InOneSector(k, c)
    requires base + Last(k, c') / 512 < |d| && c' != c
    ensures Entry(k, WithEntry(k, d, base, c, v), base, c') == Entry(k, d, base, c')
  {
    hide ByteAt, WithEntry, NewBytes, Offset, Join, Get12, Get32, Join4;
    var x' := Offset(k, c');
    Overlap(k, c, c');
    WrittenByte(k, d, base, c, v, x');
    WrittenByte(k, d, base, c, v, x' + 1);
    match k
    case Fat12 =>
      if c' == c + 1 && c % 2 == 0 {
        SharedByteEven(d, base, c, v, ByteAt(d, base, x' + 1));
      } else if c == c' + 1 && c' % 2 == 0 {
        SharedByteOdd(d, base, c, v, ByteAt(d, base, x'));
      }
    case Fat16 =>
    case Fat32 =>
      WrittenByte(k, d, base, c, v, x' + 2);
      WrittenByte(k, d, base, c, v, x' + 3);
  }

  /** The high four bits of the second byte belong to the next entry and are kept. */
  lemma SharedByteEven(d: seq<Sector>, base: nat, c: nat, v: nat, b: Octet)
    requires base + Last(Fat12, c) / 512 < |d| && c % 2 == 0
    ensures Get12(c + 1, Join(NewBytes(Fat12, d, base, c, v)[1], b)) ==
            Get12(c + 1, Join(ByteAt(d, base, Offset(Fat12, c) + 1), b))
  {
    hide ByteAt, Offset;
    var b0, b1 := ByteAt(d, base, Offset(Fat12, c)), ByteAt(d, base, Offset(Fat12, c) + 1);
    HighNibble(c, b0, b1, v);
    SameHigh(b1, Hi(Set12(c, Join(b0, b1), v)), b);
  }

  lemma HighNibble(c: nat, b0: Octet, b1: Octet, v: nat)
    requires c % 2 == 0
    ensures Hi(Set12(c, Join(b0, b1), v)) / 16 == b1 / 16
  {
    assert Join(b0, b1) / 0x1000 == b1 / 16;
  }

  lemma SameHigh(p: Octet, q: Octet, b: Octet)
    requires p / 16 == q / 16
    ensures Join(p, b) / 16 == Join(q, b) / 16
  {
    hide Join;
    JoinHigh(p, b);
    JoinHigh(q, b);
  }

  lemma JoinHigh(p: Octet, b: Octet)
    ensures Join(p, b) / 16 == p as int / 16 + 16 * b as int
  {
    assert Join(p, b) == 16 * (p as int / 16 + 16 * b as int) + p as int % 16;
  }

  lemma SharedByteOdd(d: seq<Sector>, base: nat, c: nat, v: nat, a: Octet)
    requires base + Last(Fat12, c) / 512 < |d| && c % 2 == 1
    ensures Get12(c - 1, Join(a, NewBytes(Fat12, d, base, c, v)[0])) ==
            Get12(c - 1, Join(a, ByteAt(d, base, Offset(Fat12, c))))
  {
    hide ByteAt, Offset, Set12, Join, Lo;
    var b0, b1 := ByteAt(d, base, Offset(Fat12, c)), ByteAt(d, base, Offset(Fat12, c) + 1);
    LowNibble(c, b0, b1, v);
    SameLow(a, b0, Lo(Set12(c, Join(b0, b1), v)));
  }

  lemma LowNibble(c: nat, b0: Octet, b1: Octet, v: nat)
    requires c % 2 == 1
    ensures Lo(Set12(c, Join(b0, b1), v)) % 16 == b0 % 16
  {
    hide Set12, Join;
    JoinNibble(b0, b1);
    OddNibble(c, Join(b0, b1), v);
    ByteNibble(Set12(c, Join(b0, b1), v));
  }

  lemma JoinNibble(b0: Octet, b1: Octet)
    ensures Join(b0, b1) % 16 == b0 % 16
  {
    assert Join(b0, b1) == 16 * (16 * b1 as int) + b0;
  }

  lemma OddNibble(c: nat, n: nat, v: nat)
    requires c % 2 == 1
    ensures Set12(c, n, v) % 16 == n % 16
  {
  }

  lemma ByteNibble(m: nat)
    ensures Lo(m) % 16 == m % 16
  {
    assert m == 16 * (16 * (m / 256)) + Lo(m) as int;
  }

  lemma SameLow(a: Octet, p: Octet, q: Octet)
    requires p % 16 == q % 16
    ensures Join(a, p) % 0x1000 == Join(a, q) % 0x1000
  {
    hide Join;
    JoinLow(a, p);
    JoinLow(a, q);
  }

  lemma JoinLow(a: Octet, p: Octet)
    ensures Join(a, p) % 0x1000 == a as int + 256 * (p as int % 16)
  {
    assert Join(a, p) == 0x1000 * (p as int / 16) + (a as int + 256 * (p as int % 16));
  }

  // ---------- the table of a volume ----------

  lemma CellInside(g: Geometry, c: nat)
    requires Proper(g) && c < g.clusters
    ensures g.reserved + Last(g.kind, c) / 512 < g.reserved + g.fatSectors <= g.dataStart
  {
    assert Offset(g.kind, c) <= Offset(g.kind, g.clusters - 1);
  }

  /** The entries of all clusters. */
  ghost function Table(g: Geometry, d: seq<Sector>): (t: seq<nat>)
    requires Proper(g) && |d| >= g.dataStart
    ensures |t| == g.clusters
  {
    seq(g.clusters, c requires 0 <= c < g.clusters => CellInside(g, c); Entry(g.kind, d, g.reserved, c))
  }

  /** With two tables, each sector of the second equals that of the first. */
  ghost predicate CopiesAgree(g: Geometry, d: seq<Sector>)
    requires Proper(g) && |d| >= g.dataStart
  {
    g.mirrored ==> forall i :: g.reserved <= i < g.reserved + g.fatSectors ==> d[i] == d[i + g.fatSectors]
  }

  /** The disk after fat_write_entry: the sector of the entry, copied to the second table. */
  function SetEntry(g: Geometry, d: seq<Sector>, c: nat, v: nat): (d': seq<Sector>)
    requires Proper(g) && |d| >= g.dataStart && c < g.clusters && InOneSector(g.kind, c)
    ensures |d'| == |d|
  {
    CellInside(g, c);
    var d1 := WithEntry(g.kind, d, g.reserved, c, v);
    var s := g.reserved + Offset(g.kind, c) / 512;
    if g.mirrored then d1[s + g.fatSectors := d1[s]] else d1
  }

  /** A write changes exactly one entry of the table, keeps the copies equal and leaves
      every sector past the tables alone. */
  lemma SetEntryMeaning(g: Geometry, d: seq<Sector>, c: nat, v: nat)
    requires Proper(g) && |d| >= g.dataStart && c < g.clusters && InOneSector(g.kind, c)
    ensures var d' := SetEntry(g, d, c, v);
            Table(g, d') == Table(g, d)[c := v % Modulus(g.kind)] &&
            (CopiesAgree(g, d) ==> CopiesAgree(g, d')) &&
            d'[g.dataStart..] == d[g.dataStart..] && d'[..g.reserved] == d[..g.reserved]
  {
    hide SetEntry, Table, CopiesAgree;
    SetEntryTable(g, d, c, v);
    SetEntryRest(g, d, c, v);
  }

  lemma SetEntryRest(g: Geometry, d: seq<Sector>, c: nat, v: nat)
    requires Proper(g) && |d| >= g.dataStart && c < g.clusters && InOneSector(g.kind, c)
    ensures var d' := SetEntry(g, d, c, v);
            (CopiesAgree(g, d) ==> CopiesAgree(g, d')) &&
            d'[g.dataStart..] == d[g.dataStart..] && d'[..g.reserved] == d[..g.reserved]
  {
    hide WithEntry, Offset, InOneSector;
    CellInside(g, c);
    OneSector(g.kind, d, g.reserved, c, v);
    var d' := SetEntry(g, d, c, v);
    if CopiesAgree(g, d) && g.mirrored {
      forall i | g.reserved <= i < g.reserved + g.fatSectors ensures d'[i] == d'[i + g.fatSectors] {
        assert d[i] == d[i + g.fatSectors];
      }
    }
  }

  lemma SetEntryTable(g: Geometry, d: seq<Sector>, c: nat, v: nat)
    requires Proper(g) && |d| >= g.dataStart && c < g.clusters && InOneSector(g.kind, c)
    ensures Table(g, SetEntry(g, d, c, v)) == Table(g, d)[c := v % Modulus(g.kind)]
  {
    hide Entry, WithEntry, Offset, InOneSector;
    var d' := SetEntry(g, d, c, v);
    CellInside(g, c);
    var d1 := WithEntry(g.kind, d, g.reserved, c, v);
    OneSector(g.kind, d, g.reserved, c, v);
    forall c' | 0 <= c' < g.clusters
      ensures Table(g, d')[c'] == if c' == c then v % Modulus(g.kind) else Table(g, d)[c']
    {
      CellInside(g, c');
      SameTable(g, d1, d', c');
      if c' == c {
        ReadWritten(g.kind, d, g.reserved, c, v);
      } else {
        ReadOther(g.kind, d, g.reserved, c, v, c');
      }
    }
  }

  lemma OneSector(k: Kind, d: seq<Sector>, base: nat, c: nat, v: nat)
    requires base + Last(k, c) / 512 < |d| && InOneSector(k, c)
    ensures var s := base + Offset(k, c) / 512;
            forall i :: 0 <= i < |d| && i != s ==> WithEntry(k, d, base, c, v)[i] == d[i]
  {
    hide NewBytes, Offset;
  }

  /** An entry depends on the sectors of the first table alone. */
  lemma SameTable(g: Geometry, d: seq<Sector>, d': seq<Sector>, c: nat)
    requires Proper(g) && |d| >= g.dataStart && |d'| >= g.dataStart && c < g.clusters
    requires forall i :: g.reserved <= i < g.reserved + g.fatSectors ==> d'[i] == d[i]
    ensures g.reserved + Last(g.kind, c) / 512 < g.dataStart
    ensures Entry(g.kind, d', g.reserved, c) == Entry(g.kind, d, g.reserved, c)
  {
    hide Get12, Get32, Join, Offset;
    CellInside(g, c);
  }

  /** Writing data sectors leaves the table alone. */
  lemma TableFrame(g: Geometry, d: seq<Sector>, d': seq<Sector>)
    requires Proper(g) && |d| >= g.dataStart && |d'| >= g.dataStart
    requires d'[..g.dataStart] == d[..g.dataStart]
    ensures Table(g, d') == Table(g, d)
    ensures CopiesAgree(g, d) ==> CopiesAgree(g, d')
  {
    hide Entry, Offset;
    forall i | 0 <= i < g.dataStart ensures d'[i] == d[i] {
      assert d'[..g.dataStart][i] == d[..g.dataStart][i];
    }
    if CopiesAgree(g, d) && g.mirrored {
      forall i | g.reserved <= i < g.reserved + g.fatSectors ensures d'[i] == d'[i + g.fatSectors] {
        assert d[i] == d[i + g.fatSectors];
      }
    }
    forall c | 0 <= c < g.clusters ensures Table(g, d')[c] == Table(g, d)[c] {
      SameTable(g, d, d', c);
    }
  }
}
