/** Long file names on FAT: the slots that one driver writes into a directory, and the
    accumulator with which the other driver reads them back. */
module LongNames {
  import opened Units

  type Entry = e: seq<Octet> | |e| == 32 witness seq(32, _ => 0)

  /** A name that can be written: 1 to 255 ASCII characters, none of them NUL. */
  ghost predicate Writable(name: seq<Octet>) {
    1 <= |name| <= 255 && forall i :: 0 <= i < |name| ==> 0 < name[i] < 0x80
  }

  function ToUpper(c: Octet): Octet { if 0x61 <= c <= 0x7A then c - 32 else c }

  function Upper(name: seq<Octet>): (u: seq<Octet>)
    ensures |u| == |name| && forall i :: 0 <= i < |name| ==> u[i] == ToUpper(name[i])
  {
    seq(|name|, i requires 0 <= i < |name| => ToUpper(name[i]))
  }

  /** Thirteen characters to a slot. */
  function SlotCount(len: nat): nat { (len + 12) / 13 }

  lemma SlotCountMeaning(len: nat)
    requires 1 <= len <= 255
    ensures 1 <= SlotCount(len) <= 20 && 13 * (SlotCount(len) - 1) < len <= 13 * SlotCount(len)
  {
  }

  /** Where character j of a slot lies in its entry. */
  function CharOffset(j: nat): nat
    requires j < 13
  {
    if j <= 4 then 1 + j * 2 else if j <= 10 then 14 + (j - 5) * 2 else 28 + (j - 11) * 2
  }

  /** Character i as written: the name, a terminator, then filler. */
  function Written(name: seq<Octet>, i: nat): nat {
    if i < |name| then name[i] as int else if i == |name| then 0 else 0xFFFF
  }

  function SlotNumber(n: nat, k: nat): Octet
    requires k < n <= 20
  {
    if k == 0 then n + 0x40 else n - k
  }

  /** Entry e is slot k of the n slots of a name, all 32 bytes of it. */
  ghost predicate IsSlot(e: Entry, name: seq<Octet>, n: nat, k: nat, checksum: Octet)
    requires k < n <= 20
  {
    && e[0] == SlotNumber(n, k) && e[11] == 0x0F && e[12] == 0 && e[13] == checksum && e[26] == 0 && e[27] == 0
    && Chars(e, name, 13 * (n - 1 - k))
  }

  ghost predicate Chars(e: Entry, name: seq<Octet>, base: nat) {
    forall j :: 0 <= j < 13 ==> CharIs(e, j, name, base)
  }

  /** Character j of the entry is the one written at position base + j. */
  predicate CharIs(e: Entry, j: nat, name: seq<Octet>, base: nat)
    requires j < 13
  {
    var i, lo, hi := base + j, e[CharOffset(j)], e[CharOffset(j) + 1];
    if i < |name| then lo == name[i] && hi == 0
    else if i == |name| then lo == hi == 0
    else lo == hi == 0xFF
  }

  lemma OffsetsApart(i: nat, j: nat)
    requires i < j < 13
    ensures CharOffset(i) + 2 <= CharOffset(j)
    ensures CharOffset(j) + 1 < 32
  {
  }

  lemma OffsetAvoids(j: nat)
    requires j < 13
    ensures CharOffset(j) + 1 < 32
    ensures (0 < CharOffset(j) && CharOffset(j) + 1 < 11) || (13 < CharOffset(j) && CharOffset(j) + 1 < 26) ||
            27 < CharOffset(j)
  {
  }

  // ---------- writing ----------

  /** One slot filled in, as add_dir_entry does it in the sector buffer. */
  method FillSlot(name: seq<Octet>, n: nat, k: nat, checksum: Octet) returns (e: Entry)
    requires |name| <= 255 && k < n <= 20
    ensures IsSlot(e, name, n, k, checksum)
  {
    hide CharOffset;
    e := seq(32, _ => 0);
    var chunk := n - 1 - k;
    e := e[0 := if k == 0 then n + 0x40 else chunk + 1];
    e := e[11 := 0x0F];
    e := e[13 := checksum];
    var base := chunk * 13;
    for j := 0 to 13
      invariant e[0] == SlotNumber(n, k) && e[11] == 0x0F && e[12] == 0 && e[13] == checksum && e[26] == 0 && e[27] == 0
      invariant forall i :: 0 <= i < j ==> CharIs(e, i, name, base)
    {
      var c := Written(name, base + j);
      OffsetAvoids(j);
      ghost var before := e;
      e := e[CharOffset(j) := c % 256];
      e := e[CharOffset(j) + 1 := c / 256];
      forall i | 0 <= i < j ensures CharIs(e, i, name, base) {
        OffsetsApart(i, j);
        assert CharIs(before, i, name, base);
      }
    }
  }

  /** Entry number i of a directory. */
  function EntryAt(dir: seq<Sector>, i: nat): Entry
    requires i / 16 < |dir|
  {
    dir[i / 16][i % 16 * 32..i % 16 * 32 + 32]
  }

  /** One entry of a directory replaced. */
  function WithEntry(dir: seq<Sector>, i: nat, e: Entry): seq<Sector>
    requires i / 16 < |dir|
  {
    var s := dir[i / 16];
    var o := i % 16 * 32;
    dir[i / 16 := s[..o] + e + s[o + 32..]]
  }

  lemma EntryReplaced(dir: seq<Sector>, i: nat, e: Entry, j: nat)
    requires i / 16 < |dir| && j / 16 < |dir|
    ensures |WithEntry(dir, i, e)| == |dir| && EntryAt(WithEntry(dir, i, e), j) == if j == i then e else EntryAt(dir, j)
  {
    var d := WithEntry(dir, i, e);
    if j / 16 == i / 16 {
      var a, b := i % 16, j % 16;
      assert i == 16 * (i / 16) + a && j == 16 * (j / 16) + b;
      var s := dir[i / 16];
      Splice(s, a * 32, e, b * 32);
    }
  }

  lemma Splice(s: Sector, o: nat, e: Entry, p: nat)
    requires o + 32 <= 512 && p + 32 <= 512 && (p == o || p + 32 <= o || o + 32 <= p)
    ensures (s[..o] + e + s[o + 32..])[p..p + 32] == if p == o then e else s[p..p + 32]
  {
  }

  /** Entry base + k of the directory is slot k. */
  ghost predicate SlotAt(dir: seq<Sector>, base: nat, name: seq<Octet>, n: nat, k: nat, checksum: Octet) {
    k < n <= 20 && IsSlot(EntryOf(dir, base + k), name, n, k, checksum)
  }

  /** The slots of a name written from entry base on, in the order of add_dir_entry. */
  method WriteSlots(dir0: seq<Sector>, base: nat, name: seq<Octet>, checksum: Octet) returns (dir: seq<Sector>)
    requires 1 <= |name| <= 255 && (base + SlotCount(|name|)) / 16 < |dir0|
    ensures |dir| == |dir0| && SlotCount(|name|) <= 20
    ensures forall k :: 0 <= k < SlotCount(|name|) ==> SlotAt(dir, base, name, SlotCount(|name|), k, checksum)
    ensures forall i :: 0 <= i < 16 * |dir| && !(base <= i < base + SlotCount(|name|)) ==>
            EntryOf(dir, i) == EntryOf(dir0, i)
  {
    hide IsSlot, EntryAt, WithEntry, SlotCount;
    SlotCountMeaning(|name|);
    var n := SlotCount(|name|);
    dir := dir0;
    for k := 0 to n
      invariant |dir| == |dir0|
      invariant forall i :: 0 <= i < k ==> SlotAt(dir, base, name, n, i, checksum)
      invariant forall i :: 0 <= i < 16 * |dir| && !(base <= i < base + k) ==> EntryOf(dir, i) == EntryOf(dir0, i)
    {
      var e := FillSlot(name, n, k, checksum);
      ghost var before := dir;
      Within(base + k, base + n, |dir|);
      dir := WithEntry(dir, base + k, e);
      EntryReplaced(before, base + k, e, base + k);
      forall i | 0 <= i < 16 * |dir| && i != base + k ensures EntryOf(dir, i) == EntryOf(before, i) {
        EntryReplaced(before, base + k, e, i);
      }
      forall i | 0 <= i < k ensures SlotAt(dir, base, name, n, i, checksum) {
        Within(base + i, base + n, |dir|);
        assert SlotAt(before, base, name, n, i, checksum);
        assert EntryOf(dir, base + i) == EntryOf(before, base + i);
      }
    }
  }

  lemma Within(i: nat, j: nat, n: nat)
    requires i <= j && j / 16 < n
    ensures i / 16 < n && i < 16 * n
  {
  }

  /** Entry i of a directory, for a number known to lie in it. */
  ghost function EntryOf(dir: seq<Sector>, i: nat): Entry {
    if i / 16 < |dir| then EntryAt(dir, i) else seq(32, _ => 0)
  }

  // ---------- reading ----------

  function CharOf(e: Entry, j: nat): nat
    requires j < 13
  {
    e[CharOffset(j)] as int + 256 * e[CharOffset(j) + 1] as int
  }

  /** read_lfn_chars: the three regions of a slot. */
  method ReadChars(e: Entry) returns (out: seq<nat>)
    ensures |out| == 13 && forall j :: 0 <= j < 13 ==> out[j] == CharOf(e, j)
  {
    out := seq(13, _ => 0);
    for j := 0 to 5
      invariant |out| == 13 && forall i :: 0 <= i < j ==> out[i] == CharOf(e, i)
    {
      var off := 1 + j * 2;
      out := out[j := e[off] as int + 256 * e[off + 1] as int];
    }
    for j := 0 to 6
      invariant |out| == 13 && forall i :: 0 <= i < 5 + j ==> out[i] == CharOf(e, i)
    {
      var off := 14 + j * 2;
      out := out[5 + j := e[off] as int + 256 * e[off + 1] as int];
    }
    for j := 0 to 2
      invariant |out| == 13 && forall i :: 0 <= i < 11 + j ==> out[i] == CharOf(e, i)
    {
      var off := 28 + j * 2;
      out := out[11 + j := e[off] as int + 256 * e[off + 1] as int];
    }
  }

  /** What the accumulator stores for a character: itself, a small letter less 32, and 255 for all
      beyond the first 128. */
  function Folded(ch: nat): (b: Octet)
    ensures ch >= 128 ==> b == 255
    ensures ch < 128 && !(97 <= ch <= 122) ==> b == ch
    ensures 97 <= ch <= 122 ==> b == ch - 32
  {
    if ch == 0 then 0 else if ch < 0x80 then ToUpper(ch) else 0xFF
  }

  class LongName {
    /** lfn_name */
    var text: seq<Octet>
    /** lfn_filled */
    var filled: bool

    ghost predicate Valid()
      reads this
    {
      |text| == 256
    }

    ghost predicate Clear()
      reads this
    {
      !filled && text == seq(256, _ => 0)
    }

    constructor ()
      ensures Valid() && Clear()
    {
      text := seq(256, _ => 0);
      filled := false;
    }

    method Reset()
      modifies this
      ensures Valid() && Clear()
    {
      text := seq(256, _ => 0);
      filled := false;
    }

    /** One long-name entry: its thirteen characters go to their place in the name. */
    method Accept(e: Entry)
      requires Valid()
      modifies this
      ensures Valid()
      ensures var n := e[0] % 64;
              if n == 0 || n > 20 then Clear()
              else filled == (old(filled) || e[0] / 64 % 2 == 1) &&
                   forall p :: 0 <= p < 256 ==>
                   text[p] == if 13 * (n - 1) <= p < 13 * n then Folded(CharOf(e, p - 13 * (n - 1))) else old(text)[p]
    {
      hide CharOf;
      var isLast := e[0] / 64 % 2 == 1;
      var seqNum := e[0] % 64;
      if seqNum == 0 || seqNum > 20 {
        Reset();
        return;
      }
      var idx := seqNum - 1;
      var utf16 := ReadChars(e);
      var j := 0;
      while j < 13
        invariant 0 <= j <= 13 && |text| == 256 && filled == old(filled)
        invariant forall p :: 0 <= p < 256 ==>
                  text[p] == if 13 * idx <= p < 13 * idx + j then Folded(CharOf(e, p - 13 * idx)) else old(text)[p]
      {
        var pos := idx * 13 + j;
        if pos >= 256 {
          break;
        }
        text := text[pos := Folded(utf16[j])];
        j := j + 1;
      }
      if isLast {
        filled := true;
      }
    }

    /** The length of the accumulated name: up to the first zero. */
    method Length() returns (n: nat)
      requires Valid()
      ensures n <= 256 && (n < 256 ==> text[n] == 0) && forall i :: 0 <= i < n ==> text[i] != 0
    {
      n := 0;
      while n < 256
        invariant 0 <= n <= 256 && forall i :: 0 <= i < n ==> text[i] != 0
      {
        if text[n] == 0 {
          return;
        }
        n := n + 1;
      }
    }
  }

  /** What stands at position p once slot k has been read: the name, its terminator, filler. */
  function Cell(name: seq<Octet>, p: nat): Octet { Folded(Written(name, p)) }

  /** The accumulator after slots 0 to k of a name: the positions from the chunk of slot k on. */
  ghost predicate ReadBack(text: seq<Octet>, name: seq<Octet>, n: nat, k: nat)
    requires k <= n
  {
    |text| == 256 && forall p :: 0 <= p < 256 ==> text[p] == if 13 * (n - k) <= p < 13 * n then Cell(name, p) else 0
  }

  lemma SlotChars(e: Entry, name: seq<Octet>, n: nat, k: nat, checksum: Octet, j: nat)
    requires k < n <= 20 && IsSlot(e, name, n, k, checksum) && j < 13 && Writable(name)
    ensures CharOf(e, j) == Written(name, 13 * (n - 1 - k) + j)
  {
    hide CharOffset;
    assert CharIs(e, j, name, 13 * (n - 1 - k));
  }

  lemma SlotHeader(n: nat, k: nat)
    requires k < n <= 20
    ensures SlotNumber(n, k) % 64 == n - k && (SlotNumber(n, k) / 64 % 2 == 1 <==> k == 0)
  {
  }

  /** The slots of a name, in the order in which they lie on disk, fed to a clear accumulator
      rebuild the name in upper case. */
  method ReadSlots(acc: LongName, dir: seq<Sector>, base: nat, name: seq<Octet>, checksum: Octet) returns (len: nat)
    requires acc.Valid() && acc.Clear() && Writable(name)
    requires SlotCount(|name|) <= 20 && (base + SlotCount(|name|)) / 16 < |dir|
    requires forall k :: 0 <= k < SlotCount(|name|) ==> SlotAt(dir, base, name, SlotCount(|name|), k, checksum)
    modifies acc
    ensures acc.Valid() && acc.filled && len == |name| && acc.text[..len] == Upper(name)
  {
    hide SlotCount, IsSlot, EntryAt, CharOf, Written, Folded, Cell;
    SlotCountMeaning(|name|);
    var n := SlotCount(|name|);
    for k := 0 to n
      invariant acc.Valid() && ReadBack(acc.text, name, n, k) && (acc.filled <==> k > 0)
    {
      Within(base + k, base + n, |dir|);
      var e := EntryAt(dir, base + k);
      assert SlotAt(dir, base, name, n, k, checksum);
      SlotHeader(n, k);
      SlotStart(e, name, n, k, checksum);
      ghost var before := acc.text;
      acc.Accept(e);
      MoreReadBack(before, acc.text, e, name, n, k, checksum);
    }
    Rebuilt(acc.text, name, n);
    len := acc.Length();
    FirstZero(acc.text, name, n, len);
  }

  lemma SlotStart(e: Entry, name: seq<Octet>, n: nat, k: nat, checksum: Octet)
    requires k < n <= 20 && IsSlot(e, name, n, k, checksum)
    ensures e[0] == SlotNumber(n, k)
  {
  }

  lemma MoreReadBack(before: seq<Octet>, text: seq<Octet>, e: Entry, name: seq<Octet>, n: nat, k: nat, checksum: Octet)
    requires k < n <= 20 && Writable(name) && IsSlot(e, name, n, k, checksum) && ReadBack(before, name, n, k) &&
             |text| == 256
    requires var m := n - k;
             forall p :: 0 <= p < 256 ==>
               text[p] == if 13 * (m - 1) <= p < 13 * m then Folded(CharOf(e, p - 13 * (m - 1))) else before[p]
    ensures ReadBack(text, name, n, k + 1)
  {
    hide IsSlot, CharOf, Written, Folded;
    forall p | 0 <= p < 256 ensures text[p] == if 13 * (n - k - 1) <= p < 13 * n then Cell(name, p) else 0 {
      if 13 * (n - k - 1) <= p < 13 * (n - k) {
        SlotChars(e, name, n, k, checksum, p - 13 * (n - k - 1));
      }
    }
  }

  /** Once all slots are read, the name stands at the front and a zero behind it. */
  lemma Rebuilt(text: seq<Octet>, name: seq<Octet>, n: nat)
    requires Writable(name) && n == SlotCount(|name|) && ReadBack(text, name, n, n)
    ensures text[..|name|] == Upper(name) && text[|name|] == 0 && forall i :: 0 <= i < |name| ==> text[i] != 0
  {
    hide SlotCount;
    SlotCountMeaning(|name|);
  }

  lemma FirstZero(text: seq<Octet>, name: seq<Octet>, n: nat, len: nat)
    requires |text| == 256 && |name| < 256 && text[|name|] == 0 && forall i :: 0 <= i < |name| ==> text[i] != 0
    requires len <= 256 && (len < 256 ==> text[len] == 0) && forall i :: 0 <= i < len ==> text[i] != 0
    ensures len == |name|
  {
  }

  // ---------- matching ----------

  /** lfn_match */
  method Match(lfn: seq<Octet>, user: seq<Octet>) returns (ok: bool)
    ensures ok <==> lfn == Upper(user)
  {
    if |lfn| != |user| {
      return false;
    }
    for i := 0 to |lfn|
      invariant forall j :: 0 <= j < i ==> lfn[j] == ToUpper(user[j])
    {
      var a := lfn[i];
      var b: Octet := if 0x61 <= user[i] <= 0x7A then user[i] - 32 else user[i];
      if a != b {
        return false;
      }
    }
    return true;
  }

  /** The same byte, or the letters A to Z and a to z, which differ by 32. */
  predicate SameLetter(x: Octet, y: Octet) {
    x == y || (0x41 <= x <= 0x5A && y == x + 32) || (0x61 <= x <= 0x7A && x == y + 32)
  }

  lemma UpperLetter(x: Octet, y: Octet)
    ensures ToUpper(x) == ToUpper(y) <==> SameLetter(x, y)
  {
  }

  /** Two names that differ at most in the case of letters. */
  ghost predicate CaseVariants(a: seq<Octet>, b: seq<Octet>) {
    |a| == |b| && forall i :: 0 <= i < |a| ==> SameLetter(a[i], b[i])
  }

  /** Writing a name into a directory, across sector boundaries or not, and looking it up through
      the accumulator accepts exactly the case variants of the name. */
  method WriteThenMatch(dir0: seq<Sector>, base: nat, name: seq<Octet>, checksum: Octet, user: seq<Octet>)
      returns (dir: seq<Sector>, ok: bool)
    requires Writable(name) && (base + SlotCount(|name|)) / 16 < |dir0|
    ensures ok <==> CaseVariants(name, user)
  {
    hide SlotCount, SlotAt, EntryOf, ToUpper;
    dir := WriteSlots(dir0, base, name, checksum);
    var acc := new LongName();
    var len := ReadSlots(acc, dir, base, name, checksum);
    ok := Match(acc.text[..len], user);
    UpperSame(name, user);
  }

  lemma UpperSame(a: seq<Octet>, b: seq<Octet>)
    ensures Upper(a) == Upper(b) <==> CaseVariants(a, b)
  {
    hide ToUpper, SameLetter;
    assert |Upper(a)| == |a| && |Upper(b)| == |b|;
    if Upper(a) == Upper(b) {
      forall i | 0 <= i < |a| ensures SameLetter(a[i], b[i]) {
        assert Upper(a)[i] == Upper(b)[i];
        UpperLetter(a[i], b[i]);
      }
    }
    if CaseVariants(a, b) {
      forall i | 0 <= i < |a| ensures Upper(a)[i] == Upper(b)[i] {
        UpperLetter(a[i], b[i]);
      }
    }
  }
}
