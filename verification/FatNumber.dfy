/** The allocation table as one number, its first byte the least significant: an entry is a run of
    its bits, and a write changes exactly that run. */
module FatNumber {
  import opened Units
  import opened FatTable
  import opened FatBytes

  function Pow2(n: nat): (p: nat)
    ensures p > 0
  {
    if n == 0 then 1 else 2 * Pow2(n - 1)
  }

  lemma {:induction false} Pow2Adds(a: nat, b: nat)
    ensures Pow2(a + b) == Pow2(a) * Pow2(b)
  {
    if a > 0 {
      Pow2Adds(a - 1, b);
      assert a + b - 1 == (a - 1) + b;
      Twice(Pow2(a - 1), Pow2(b));
    }
  }

  lemma Twice(p: nat, q: nat)
    ensures 2 * (p * q) == (2 * p) * q
  {
  }

  /** Bytes in order of weight. */
  function Number(b: seq<Octet>): nat {
    if b == [] then 0 else (b[0] as int) + 256 * Number(b[1..])
  }

  lemma {:induction false} NumberJoin(a: seq<Octet>, b: seq<Octet>)
    ensures Number(a + b) == Number(a) + Pow2(8 * |a|) * Number(b)
  {
    hide Pow2;
    if a == [] {
      assert a + b == b;
      Pow2Zero();
    } else {
      assert (a + b)[1..] == a[1..] + b;
      NumberJoin(a[1..], b);
      Pow2Byte(|a| - 1);
      Weighted(a[0], Number(a[1..]), Pow2(8 * (|a| - 1)), Number(b));
    }
  }

  lemma Pow2Zero()
    ensures Pow2(0) == 1
  {
  }

  lemma Pow2Byte(n: nat)
    ensures Pow2(8 * (n + 1)) == 256 * Pow2(8 * n)
  {
    Pow2Adds(8, 8 * n);
    assert Pow2(8) == 256;
  }

  lemma Weighted(x: nat, a: nat, p: nat, b: nat)
    ensures x + 256 * (a + p * b) == (x + 256 * a) + (256 * p) * b
  {
    assert 256 * (p * b) == (256 * p) * b;
  }

  lemma {:induction false} NumberSmall(b: seq<Octet>)
    ensures Number(b) < Pow2(8 * |b|)
  {
    hide Pow2;
    if b == [] {
      Pow2Zero();
    } else {
      NumberSmall(b[1..]);
      Pow2Byte(|b| - 1);
    }
  }

  /** What division by p * q leaves of a number whose part below p is known. */
  lemma Parted(low: nat, p: nat, x: nat, q: nat)
    requires low < p && q > 0
    ensures p * q > 0
    ensures (low + p * x) / (p * q) == x / q && (low + p * x) % (p * q) == low + p * (x % q)
  {
    var n := low + p * x;
    var r := low + p * (x % q);
    assert x == q * (x / q) + x % q;
    Spread(p, q, x / q, x % q);
    assert n == (p * q) * (x / q) + r;
    Below(low, p, x % q, q);
    Quotient(n, p * q, x / q, r);
  }

  lemma Spread(p: nat, q: nat, a: nat, b: nat)
    ensures p * (q * a + b) == (p * q) * a + p * b
  {
    assert p * (q * a + b) == p * (q * a) + p * b;
    assert p * (q * a) == (p * q) * a;
  }

  lemma Below(low: nat, p: nat, b: nat, q: nat)
    requires low < p && b < q
    ensures low + p * b < p * q
  {
    assert p * b + p == p * (b + 1);
    UpTo(p, b + 1, q);
  }

  lemma UpTo(p: nat, a: nat, b: nat)
    requires a <= b
    ensures p * a <= p * b
  {
    assert p * b == p * a + p * (b - a);
  }

  lemma Quotient(n: nat, m: nat, a: nat, r: nat)
    requires n == m * a + r && r < m
    ensures n / m == a && n % m == r
  {
    var a', r' := n / m, n % m;
    assert n == m * a' + r';
    if a' < a {
      UpTo(m, a' + 1, a);
    } else if a < a' {
      UpTo(m, a + 1, a');
    }
  }

  // ---------- the table ----------

  /** The bytes of the first table. */
  function TableBytes(g: Geometry, d: seq<Sector>): seq<Octet>
    requires g.reserved + g.fatSectors <= |d|
  {
    Flat(d[g.reserved..g.reserved + g.fatSectors])
  }

  /** The bits of the number n that are the entry of cluster c. */
  function Field(k: Kind, n: nat, c: nat): nat {
    match k
    case Fat12 => n / Pow2(12 * c) % 0x1000
    case Fat16 => n / Pow2(16 * c) % 0x1_0000
    case Fat32 => n / Pow2(32 * c) % 0x1000_0000
  }

  /** Of the bits of n only those of the entry have changed, to the value v. */
  predicate OnlyField(k: Kind, n: nat, n': nat, c: nat, v: nat) {
    match k
    case Fat12 => n' % Pow2(12 * c) == n % Pow2(12 * c) && n' / Pow2(12 * c) % 0x1000 == v % 0x1000 &&
                  n' / Pow2(12 * c + 12) == n / Pow2(12 * c + 12)
    case Fat16 => n' % Pow2(16 * c) == n % Pow2(16 * c) && n' / Pow2(16 * c) % 0x1_0000 == v % 0x1_0000 &&
                  n' / Pow2(16 * c + 16) == n / Pow2(16 * c + 16)
    case Fat32 => n' % Pow2(32 * c) == n % Pow2(32 * c) && n' / Pow2(32 * c) % 0x1000_0000 == v % 0x1000_0000 &&
                  n' / Pow2(32 * c + 28) == n / Pow2(32 * c + 28)
  }

  lemma TableByte(g: Geometry, d: seq<Sector>, x: nat)
    requires g.reserved + g.fatSectors <= |d| && x < 512 * g.fatSectors
    ensures |TableBytes(g, d)| == 512 * g.fatSectors
    ensures g.reserved + x / 512 < |d| && TableBytes(g, d)[x] == ByteAt(d, g.reserved, x)
  {
    FlatAt(d[g.reserved..g.reserved + g.fatSectors], x);
  }

  /** The number in three parts: the bytes below position x, the w bytes there, and those above. */
  lemma ThreeParts(b: seq<Octet>, x: nat, w: nat)
    requires x + w <= |b|
    ensures var low, high := Number(b[..x]), Number(b[x + w..]);
            low < Pow2(8 * x) && Number(b) == low + Pow2(8 * x) * (Number(b[x..x + w]) + Pow2(8 * w) * high)
  {
    hide Pow2, Number;
    NumberSmall(b[..x]);
    assert b == b[..x] + b[x..] && b[x..] == b[x..x + w] + b[x + w..];
    NumberJoin(b[..x], b[x..]);
    NumberJoin(b[x..x + w], b[x + w..]);
  }

  lemma NumberOfTwo(b: seq<Octet>)
    requires |b| == 2
    ensures Number(b) == Join(b[0], b[1]) && Pow2(16) == 0x1_0000
  {
    assert Number(b[1..]) == (b[1] as int) + 256 * Number(b[1..][1..]);
    Pow2Adds(8, 8);
    assert Pow2(8) == 256;
  }

  lemma NumberOfFour(b: seq<Octet>)
    requires |b| == 4
    ensures Number(b) == Join4(b[0], b[1], b[2], b[3]) && Pow2(32) == 0x1_0000_0000
  {
    hide Pow2, Number;
    assert b == b[..2] + b[2..];
    NumberJoin(b[..2], b[2..]);
    NumberOfTwo(b[..2]);
    NumberOfTwo(b[2..]);
    Pow2Adds(16, 16);
  }

  // ---------- reading ----------

  /** The bytes of an entry as a number: two of them, or four for the wide table. */
  function Cell(k: Kind, d: seq<Sector>, base: nat, c: nat): nat
    requires base + Last(k, c) / 512 < |d|
  {
    if k == Fat32 then Quad(d, base, Offset(k, c)) else Pair(d, base, Offset(k, c))
  }

  /** The number of the table with the cell of an entry in the middle. */
  lemma CellParts(g: Geometry, d: seq<Sector>, c: nat)
    requires Proper(g) && |d| >= g.dataStart && c < g.clusters
    ensures g.reserved + Last(g.kind, c) / 512 < |d| && g.reserved + g.fatSectors <= |d|
    ensures var b := TableBytes(g, d);
            var x, w := Offset(g.kind, c), Width(g.kind);
            && x + w <= |b|
            && Number(b[..x]) < Pow2(8 * x)
            && Number(b) == Number(b[..x]) +
               Pow2(8 * x) * (Cell(g.kind, d, g.reserved, c) + Pow2(8 * w) * Number(b[x + w..]))
  {
    hide Number, Pow2, TableBytes, Offset, ByteAt, Join;
    CellInside(g, c);
    var x, w := Offset(g.kind, c), Width(g.kind);
    LastInside(g, c);
    var b := TableBytes(g, d);
    TableByte(g, d, x);
    TableByte(g, d, x + 1);
    ThreeParts(b, x, w);
    if g.kind == Fat32 {
      TableByte(g, d, x + 2);
      TableByte(g, d, x + 3);
      NumberOfFour(b[x..x + w]);
    } else {
      NumberOfTwo(b[x..x + w]);
    }
  }

  lemma LastInside(g: Geometry, c: nat)
    requires Proper(g) && c < g.clusters
    ensures Offset(g.kind, c) + Width(g.kind) <= 512 * g.fatSectors
  {
    assert Last(g.kind, c) <= Last(g.kind, g.clusters - 1);
  }

  /** Where the bits of an entry start: at its first byte, or four bits on for an odd twelve-bit one. */
  function Nibble(k: Kind, c: nat): nat { if k == Fat12 && c % 2 == 1 then 4 else 0 }

  function BitsOf(k: Kind): nat {
    match k
    case Fat12 => 12
    case Fat16 => 16
    case Fat32 => 32
  }

  lemma Position(k: Kind, c: nat)
    ensures BitsOf(k) * c == 8 * Offset(k, c) + Nibble(k, c)
  {
  }

  lemma SmallPowers()
    ensures Pow2(0) == 1 && Pow2(4) == 16 && Pow2(12) == 0x1000 && Pow2(16) == 0x1_0000
    ensures Pow2(28) == 0x1000_0000 && Pow2(32) == 0x1_0000_0000
  {
    assert Pow2(4) == 16;
    Pow2Adds(4, 4);
    Pow2Adds(8, 4);
    Pow2Adds(12, 4);
    Pow2Adds(12, 16);
    Pow2Adds(28, 4);
  }

  /** From where the bits of the entry start the number is that of the cell and what lies above it. */
  lemma FromField(k: Kind, c: nat, low: nat, cell: nat, high: nat, n: nat)
    requires low < Pow2(8 * Offset(k, c))
    requires n == low + Pow2(8 * Offset(k, c)) * (cell + Pow2(8 * Width(k)) * high)
    ensures var x := cell + Pow2(8 * Width(k)) * high;
            var q := Pow2(Nibble(k, c));
            && n / Pow2(BitsOf(k) * c) == x / q
            && n % Pow2(BitsOf(k) * c) == low + Pow2(8 * Offset(k, c)) * (x % q)
  {
    hide Pow2, Offset, Nibble;
    Position(k, c);
    Pow2Adds(8 * Offset(k, c), Nibble(k, c));
    Parted(low, Pow2(8 * Offset(k, c)), cell + Pow2(8 * Width(k)) * high, Pow2(Nibble(k, c)));
  }

  /** The entry in its cell. */
  function CellEntry(k: Kind, c: nat, cell: nat): nat {
    match k
    case Fat12 => Get12(c, cell)
    case Fat16 => cell
    case Fat32 => Get32(cell)
  }

  function CellLimit(k: Kind): nat { if k == Fat32 then 0x1_0000_0000 else 0x1_0000 }

  /** Above the entry's first bit the number is the entry, up to its width. */
  lemma CellField(k: Kind, c: nat, cell: nat, high: nat)
    requires cell < CellLimit(k)
    ensures var q := if k == Fat12 && c % 2 == 1 then 16 else 1;
            (cell + CellLimit(k) * high) / q % Modulus(k) == CellEntry(k, c, cell)
  {
    hide Get12, Get32;
    match k
    case Fat12 => Halves(c, cell, high);
    case Fat16 => WholeCell(cell, high);
    case Fat32 => LowCell(cell, high);
  }

  lemma WholeCell(cell: nat, high: nat)
    requires cell < 0x1_0000
    ensures (cell + 0x1_0000 * high) / 1 % 0x1_0000 == cell
  {
  }

  lemma LowCell(cell: nat, high: nat)
    ensures (cell + 0x1_0000_0000 * high) / 1 % 0x1000_0000 == Get32(cell)
  {
    assert cell + 0x1_0000_0000 * high == cell + 0x1000_0000 * (16 * high);
    LowPart(cell, 16 * high);
  }

  lemma LowPart(a: nat, b: nat)
    ensures (a + 0x1000_0000 * b) % 0x1000_0000 == a % 0x1000_0000
  {
  }

  lemma By16(a: nat, r: nat)
    requires r < 16
    ensures (16 * a + r) / 16 == a && (16 * a + r) % 16 == r
  {
  }

  lemma By4096(a: nat, r: nat)
    requires r < 0x1000
    ensures (0x1000 * a + r) / 0x1000 == a && (0x1000 * a + r) % 0x1000 == r
  {
  }

  lemma Halves(c: nat, cell: nat, high: nat)
    requires cell < 0x1_0000
    ensures var q := if c % 2 == 1 then 16 else 1; (cell + 0x1_0000 * high) / q % 0x1000 == Get12(c, cell)
  {
    if c % 2 == 1 {
      OddCell(cell / 16, cell % 16, high);
    } else {
      EvenCell(cell / 0x1000, cell % 0x1000, high);
    }
  }

  /** The cell of an odd cluster: the entry is its upper twelve bits. */
  lemma OddCell(e: nat, r: nat, high: nat)
    requires e < 0x1000 && r < 16
    ensures var x := (16 * e + r) + 0x1_0000 * high; x / 16 % 0x1000 == e && x % 16 == r && x / 16 / 0x1000 == high
  {
    By16(0x1000 * high + e, r);
    By4096(high, e);
    assert (16 * e + r) + 0x1_0000 * high == 16 * (0x1000 * high + e) + r;
  }

  /** The cell of an even cluster: the entry is its lower twelve bits. */
  lemma EvenCell(top: nat, e: nat, high: nat)
    requires top < 16 && e < 0x1000
    ensures var x := (0x1000 * top + e) + 0x1_0000 * high;
            x / 1 % 0x1000 == e && x % 1 == 0 && x / 1 / 0x1000 == 16 * high + top
  {
    By4096(16 * high + top, e);
    assert (0x1000 * top + e) + 0x1_0000 * high == 0x1000 * (16 * high + top) + e;
  }

  lemma FieldIs(k: Kind, c: nat, n: nat)
    ensures Field(k, n, c) == n / Pow2(BitsOf(k) * c) % Modulus(k)
  {
    hide Pow2;
  }

  lemma NibblePower(k: Kind, c: nat)
    ensures Pow2(Nibble(k, c)) == (if k == Fat12 && c % 2 == 1 then 16 else 1) && Pow2(8 * Width(k)) == CellLimit(k)
  {
    hide Pow2;
    SmallPowers();
  }

  lemma CellOfEntry(k: Kind, d: seq<Sector>, base: nat, c: nat)
    requires base + Last(k, c) / 512 < |d|
    ensures Entry(k, d, base, c) == CellEntry(k, c, Cell(k, d, base, c)) && Cell(k, d, base, c) < CellLimit(k)
  {
    hide Offset, ByteAt, Join, Get12, Get32;
  }

  /** The entry of cluster c is its field of the number of the table. */
  lemma EntryIsField(g: Geometry, d: seq<Sector>, c: nat)
    requires Proper(g) && |d| >= g.dataStart && c < g.clusters
    ensures g.reserved + g.fatSectors <= |d| && Table(g, d)[c] == Field(g.kind, Number(TableBytes(g, d)), c)
  {
    hide Number, Pow2, TableBytes, Offset, Cell, Nibble, CellEntry, CellLimit, BitsOf, Field, Modulus, Entry;
    CellParts(g, d, c);
    var b := TableBytes(g, d);
    var x, w := Offset(g.kind, c), Width(g.kind);
    var cell := Cell(g.kind, d, g.reserved, c);
    FromField(g.kind, c, Number(b[..x]), cell, Number(b[x + w..]), Number(b));
    NibblePower(g.kind, c);
    CellOfEntry(g.kind, d, g.reserved, c);
    CellField(g.kind, c, cell, Number(b[x + w..]));
    FieldIs(g.kind, c, Number(b));
  }

  // ---------- writing ----------

  /** The cell with the entry replaced. */
  function NewCell(k: Kind, c: nat, cell: nat, v: nat): nat {
    match k
    case Fat12 => Set12(c, cell, v)
    case Fat16 => v % 0x1_0000
    case Fat32 => Set32(cell, v)
  }

  /** The bits of a cell that lie below and above its entry stay. */
  lemma NewCellKeeps(k: Kind, c: nat, cell: nat, v: nat, high: nat)
    requires cell < CellLimit(k)
    ensures NewCell(k, c, cell, v) < CellLimit(k) && CellEntry(k, c, NewCell(k, c, cell, v)) == v % Modulus(k)
    ensures var q := if k == Fat12 && c % 2 == 1 then 16 else 1;
            var x, x' := cell + CellLimit(k) * high, NewCell(k, c, cell, v) + CellLimit(k) * high;
            x' % q == x % q && x' / q / Modulus(k) == x / q / Modulus(k)
  {
    match k
    case Fat12 => Set12Keeps(c, cell, v, high);
    case Fat16 => Set16Keeps(cell, v % 0x1_0000, high);
    case Fat32 => Set32Keeps(cell, v, high);
  }

  lemma Set16Keeps(cell: nat, cell': nat, high: nat)
    requires cell < 0x1_0000 && cell' < 0x1_0000
    ensures (cell + 0x1_0000 * high) / 0x1_0000 == (cell' + 0x1_0000 * high) / 0x1_0000 == high
  {
  }

  lemma Set32Keeps(cell: nat, v: nat, high: nat)
    requires cell < 0x1_0000_0000
    ensures Set32(cell, v) < 0x1_0000_0000 && Get32(Set32(cell, v)) == v % 0x1000_0000
    ensures (Set32(cell, v) + 0x1_0000_0000 * high) / 0x1000_0000 == (cell + 0x1_0000_0000 * high) / 0x1000_0000
  {
    Set32Back(cell, v);
    assert 0x1_0000_0000 * high == 0x1000_0000 * (16 * high);
  }

  lemma Set12Keeps(c: nat, cell: nat, v: nat, high: nat)
    requires cell < 0x1_0000
    ensures Set12(c, cell, v) < 0x1_0000 && Get12(c, Set12(c, cell, v)) == v % 0x1000
    ensures var q := if c % 2 == 1 then 16 else 1;
            var x, x' := cell + 0x1_0000 * high, Set12(c, cell, v) + 0x1_0000 * high;
            x' % q == x % q && x' / q / 0x1000 == x / q / 0x1000
  {
    Set12Back(c, cell, v);
    if c % 2 == 1 {
      OddCell(cell / 16, cell % 16, high);
      OddCell(v % 0x1000, cell % 16, high);
    } else {
      EvenCell(cell / 0x1000, cell % 0x1000, high);
      EvenCell(cell / 0x1000, v % 0x1000, high);
    }
  }

  /** A byte of the first table after a write. */
  lemma SetByte(g: Geometry, d: seq<Sector>, c: nat, v: nat, y: nat)
    requires Proper(g) && |d| >= g.dataStart && c < g.clusters && InOneSector(g.kind, c) && y < 512 * g.fatSectors
    ensures g.reserved + Last(g.kind, c) / 512 < |d| && g.reserved + y / 512 < |d|
    ensures var x := Offset(g.kind, c);
            ByteAt(SetEntry(g, d, c, v), g.reserved, y) ==
            if x <= y < x + Width(g.kind) then NewBytes(g.kind, d, g.reserved, c, v)[y - x]
            else ByteAt(d, g.reserved, y)
  {
    hide WithEntry, NewBytes, Offset, InOneSector;
    CellInside(g, c);
    WrittenByte(g.kind, d, g.reserved, c, v, y);
  }

  /** The bytes below and above the cell stay, and the cell becomes the new one. */
  lemma SetParts(g: Geometry, d: seq<Sector>, c: nat, v: nat)
    requires Proper(g) && |d| >= g.dataStart && c < g.clusters && InOneSector(g.kind, c)
    ensures g.reserved + g.fatSectors <= |d| && g.reserved + Last(g.kind, c) / 512 < |d|
    ensures var b, b' := TableBytes(g, d), TableBytes(g, SetEntry(g, d, c, v));
            var x, w := Offset(g.kind, c), Width(g.kind);
            |b'| == |b| && x + w <= |b| && b'[..x] == b[..x] && b'[x + w..] == b[x + w..]
  {
    hide TableBytes, SetEntry, NewBytes, Offset, InOneSector, ByteAt;
    CellInside(g, c);
    LastInside(g, c);
    var d' := SetEntry(g, d, c, v);
    var b, b' := TableBytes(g, d), TableBytes(g, d');
    TableByte(g, d, 0);
    TableByte(g, d', 0);
    forall y | 0 <= y < |b| && !(Offset(g.kind, c) <= y < Offset(g.kind, c) + Width(g.kind)) ensures b'[y] == b[y] {
      TableByte(g, d, y);
      TableByte(g, d', y);
      SetByte(g, d, c, v, y);
    }
  }

  lemma SetCell(g: Geometry, d: seq<Sector>, c: nat, v: nat)
    requires Proper(g) && |d| >= g.dataStart && c < g.clusters && InOneSector(g.kind, c)
    ensures g.reserved + Last(g.kind, c) / 512 < |d|
    ensures Cell(g.kind, SetEntry(g, d, c, v), g.reserved, c) == NewCell(g.kind, c, Cell(g.kind, d, g.reserved, c), v)
  {
    hide SetEntry, Offset, InOneSector, ByteAt, Join, Lo, Hi, Set12, Set32;
    CellInside(g, c);
    LastInside(g, c);
    var k, x := g.kind, Offset(g.kind, c);
    SetByte(g, d, c, v, x);
    SetByte(g, d, c, v, x + 1);
    match k
    case Fat12 =>
      Set12Small(c, Pair(d, g.reserved, x), v);
      JoinBack(Set12(c, Pair(d, g.reserved, x), v));
    case Fat16 =>
      JoinBack(v % 0x1_0000);
    case Fat32 =>
      SetByte(g, d, c, v, x + 2);
      SetByte(g, d, c, v, x + 3);
      Set32Back(Quad(d, g.reserved, x), v);
      var n := Set32(Quad(d, g.reserved, x), v);
      LowHalf(n);
      Join4Back(n % 0x1_0000, n / 0x1_0000);
  }

  lemma Set12Small(c: nat, n: nat, v: nat)
    requires n < 0x1_0000
    ensures Set12(c, n, v) < 0x1_0000
  {
    Set12Back(c, n, v);
  }

  /** A write changes exactly the bits of its entry. */
  lemma OnlyFieldWritten(g: Geometry, d: seq<Sector>, c: nat, v: nat)
    requires Proper(g) && |d| >= g.dataStart && c < g.clusters && InOneSector(g.kind, c)
    ensures g.reserved + g.fatSectors <= |d|
    ensures OnlyField(g.kind, Number(TableBytes(g, d)), Number(TableBytes(g, SetEntry(g, d, c, v))), c, v)
  {
    hide Number, Pow2, TableBytes, Offset, Cell, Nibble, CellEntry, CellLimit, BitsOf, OnlyField, Modulus, NewCell,
         SetEntry;
    CellInside(g, c);
    var d' := SetEntry(g, d, c, v);
    CellParts(g, d, c);
    CellParts(g, d', c);
    SetParts(g, d, c, v);
    SetCell(g, d, c, v);
    var b, b' := TableBytes(g, d), TableBytes(g, d');
    var x, w := Offset(g.kind, c), Width(g.kind);
    var cell, high := Cell(g.kind, d, g.reserved, c), Number(b[x + w..]);
    FromField(g.kind, c, Number(b[..x]), cell, high, Number(b));
    FromField(g.kind, c, Number(b[..x]), NewCell(g.kind, c, cell, v), high, Number(b'));
    NibblePower(g.kind, c);
    CellOfEntry(g.kind, d, g.reserved, c);
    NewCellKeeps(g.kind, c, cell, v, high);
    CellField(g.kind, c, NewCell(g.kind, c, cell, v), high);
    OnlyFieldIs(g.kind, Number(b), Number(b'), c, v);
  }

  /** The three clauses of OnlyField, with the width of the table as a number. */
  lemma OnlyFieldIs(k: Kind, n: nat, n': nat, c: nat, v: nat)
    requires var p := Pow2(BitsOf(k) * c);
             && n' % p == n % p && n' / p % Modulus(k) == v % Modulus(k)
             && n' / p / Modulus(k) == n / p / Modulus(k)
    ensures OnlyField(k, n, n', c, v)
  {
    hide Pow2;
    var p := Pow2(BitsOf(k) * c);
    SmallPowers();
    var m := if k == Fat12 then 12 else if k == Fat16 then 16 else 28;
    Pow2Adds(BitsOf(k) * c, m);
    TwoSteps(n, p, Modulus(k));
    TwoSteps(n', p, Modulus(k));
  }

  /** Dividing twice is dividing by the product. */
  lemma TwoSteps(n: nat, p: nat, q: nat)
    requires p > 0 && q > 0
    ensures p * q > 0 && n / (p * q) == n / p / q
  {
    assert n == p * (n / p) + n % p;
    Parted(n % p, p, n / p, q);
  }
}
