/** The store of remembered networks: passphrases sealed under a key derived from the
    machine's MAC address, and the byte format in which the profiles are kept on disk. */
module Netman {
  import opened Options
  import opened Bytes
  import opened Aes
  import opened Cbc
  import opened Hmac

  const MAX_PROFILES: nat := 8
  const MAX_NAME: nat := 32
  const MAX_SECRET: nat := 63
  const SEALED_MAX: nat := 64
  const RECORD_SIZE: nat := 131
  const FILE_MAX: nat := 1058

  /** b"DBSNET01" */
  const MAGIC: seq<Byte> := [0x44, 0x42, 0x53, 0x4E, 0x45, 0x54, 0x30, 0x31]

  datatype ProfileData = ProfileData(ssid: seq<Byte>, ssidLen: Byte, encLen: bv16, salt: Block, iv: Block,
                                     enc: seq<Byte>)

  type Profile = p: ProfileData | |p.ssid| == 32 && |p.enc| == 64 witness EmptyProfile()

  function EmptyProfile(): ProfileData {
    ProfileData(seq(32, _ => 0), 0, 0, seq(16, _ => 0), seq(16, _ => 0), seq(64, _ => 0))
  }

  function Wide(e: bv16): nat { e as nat }

  function Narrow(n: nat): bv16
    requires n < 65536
  {
    n as bv16
  }

  /** The lengths recorded in a profile lie within its buffers. */
  predicate Sane(p: Profile) { ToNat(p.ssidLen) <= MAX_NAME && Wide(p.encLen) <= SEALED_MAX }

  function Name(p: Profile): seq<Byte>
    requires Sane(p)
  {
    p.ssid[..ToNat(p.ssidLen)]
  }

  // ---------- the secret of a profile ----------

  /** device_key: the first sixteen bytes of a thousand iterations over the MAC address. */
  function DeviceKey(mac: seq<Byte>, salt: Block): Block { Derived(mac, salt, 1000)[..16] }

  /** What reveal gives for a profile; an open network has the empty secret. */
  function Secret(mac: seq<Byte>, p: Profile): Option<seq<Byte>>
    requires Sane(p)
  {
    if p.encLen == 0 then Some([])
    else
      match Opened(DeviceKey(mac, p.salt), p.iv, p.enc[..Wide(p.encLen)])
      case None => None
      case Some(m) => if |m| <= MAX_SECRET then Some(m) else None
  }

  /** A buffer of n bytes that starts with s. */
  function Extended(s: seq<Byte>, n: nat): (r: seq<Byte>)
    requires |s| <= n
    ensures |r| == n && r[..|s|] == s
  {
    s + seq(n - |s|, _ => 0)
  }

  lemma SealedFits(len: nat)
    requires len <= MAX_SECRET
    ensures Blocks(len) == 1 || Blocks(len) == 2 || Blocks(len) == 3 || Blocks(len) == 4
  {
  }

  function SealedSecret(mac: seq<Byte>, psk: seq<Byte>, salt: Block, iv: Block): (c: seq<Byte>)
    requires |psk| <= MAX_SECRET
    ensures |c| == 16 || |c| == 32 || |c| == 48 || |c| == 64
  {
    SealedFits(|psk|);
    Sealed(DeviceKey(mac, salt), iv, psk)
  }

  /** The profile that add builds. */
  function NewProfile(mac: seq<Byte>, ssid: seq<Byte>, psk: seq<Byte>, salt: Block, iv: Block): Profile
    requires 0 < |ssid| <= MAX_NAME && |psk| <= MAX_SECRET
  {
    var p := EmptyProfile().(ssid := Extended(ssid, 32), ssidLen := ToByte(|ssid|));
    if psk == [] then p
    else
      var c := SealedSecret(mac, psk, salt, iv);
      p.(encLen := Narrow(|c|), salt := salt, iv := iv, enc := Extended(c, 64))
  }

  lemma NameLength(n: nat)
    requires n <= 32
    ensures ToNat(ToByte(n)) == n
  {
  }

  lemma SealedLength(n: nat)
    requires n == 16 || n == 32 || n == 48 || n == 64
    ensures Wide(Narrow(n)) == n && Narrow(n) != 0
  {
    if n == 16 {
      assert Narrow(16) == 0x10 && Wide(0x10) == 16;
    } else if n == 32 {
      assert Narrow(32) == 0x20 && Wide(0x20) == 32;
    } else if n == 48 {
      assert Narrow(48) == 0x30 && Wide(0x30) == 48;
    } else {
      assert Narrow(64) == 0x40 && Wide(0x40) == 64;
    }
  }

  /** A profile built for a passphrase names its network and gives that passphrase back,
      whatever salt and vector were drawn. */
  lemma NewProfileReveals(mac: seq<Byte>, ssid: seq<Byte>, psk: seq<Byte>, salt: Block, iv: Block)
    requires 0 < |ssid| <= MAX_NAME && |psk| <= MAX_SECRET
    ensures var p := NewProfile(mac, ssid, psk, salt, iv);
            Sane(p) && Name(p) == ssid && Secret(mac, p) == Some(psk)
  {
    hide ToByte, ToNat, Wide, Narrow, DeviceKey, Sealed, Opened, Extended;
    NameLength(|ssid|);
    var p := NewProfile(mac, ssid, psk, salt, iv);
    WideZero();
    if psk != [] {
      var key := DeviceKey(mac, salt);
      var c := SealedSecret(mac, psk, salt, iv);
      SealedLength(|c|);
      OpenSealed(key, iv, psk);
      assert p.enc[..Wide(p.encLen)] == c;
    }
  }

  /** What it holds is the passphrase, sealed under the first sixteen bytes that a thousand
      iterations derive from the address and the salt. */
  lemma NewProfileSeals(mac: seq<Byte>, ssid: seq<Byte>, psk: seq<Byte>, salt: Block, iv: Block)
    requires 0 < |ssid| <= MAX_NAME && 0 < |psk| <= MAX_SECRET
    ensures var p := NewProfile(mac, ssid, psk, salt, iv);
            && p.salt == salt && p.iv == iv && Wide(p.encLen) <= 64
            && p.enc[..Wide(p.encLen)] == Sealed(Derived(mac, salt, 1000)[..16], iv, psk)
  {
    hide ToByte, ToNat, Wide, Narrow, Derived, Sealed, Extended;
    SealedLength(|SealedSecret(mac, psk, salt, iv)|);
  }

  lemma WideZero()
    ensures Wide(0) == 0
  {
  }

  // ---------- the byte format ----------

  function Low(e: bv16): Byte { (e & 0xFF) as bv8 }
  function High(e: bv16): Byte { (e >> 8) as bv8 }
  function Joined(lo: Byte, hi: Byte): bv16 { (lo as bv16) | (hi as bv16 << 8) }

  lemma JoinedBack(e: bv16)
    ensures Joined(Low(e), High(e)) == e
  {
  }

  function RecordBytes(p: Profile): (r: seq<Byte>)
    ensures |r| == RECORD_SIZE
  {
    [p.ssidLen] + p.ssid + [Low(p.encLen), High(p.encLen)] + p.salt + p.iv + p.enc
  }

  /** A record read back; None where the sealed length is out of range. */
  function ParseRecord(r: seq<Byte>): (p: Option<Profile>)
    requires |r| == RECORD_SIZE
    ensures p.Some? ==> Sane(p.value)
  {
    var len := if ToNat(r[0]) <= MAX_NAME then r[0] else ToByte(MAX_NAME);
    NameLength(MAX_NAME);
    var encLen := Joined(r[33], r[34]);
    if Wide(encLen) > SEALED_MAX then None
    else Some(ProfileData(r[1..33], len, encLen, r[35..51], r[51..67], r[67..131]))
  }

  lemma ParseBack(p: Profile)
    requires Sane(p)
    ensures ParseRecord(RecordBytes(p)) == Some(p)
  {
    hide ToNat, ToByte, Wide, Joined, Low, High;
    hide RecordBytes;
    JoinedBack(p.encLen);
    RecordFields(p);
  }

  /** Where each field lies in the record: after the parts before it. */
  lemma RecordFields(p: Profile)
    ensures var r := RecordBytes(p);
            && r[0] == p.ssidLen && r[1..33] == p.ssid && r[33] == Low(p.encLen) && r[34] == High(p.encLen)
            && r[35..51] == p.salt && r[51..67] == p.iv && r[67..131] == p.enc
  {
    hide Low, High;
    var lengths := [Low(p.encLen), High(p.encLen)];
    var r1 := [p.ssidLen] + p.ssid;
    var r2 := r1 + lengths;
    var r3 := r2 + p.salt;
    var r4 := r3 + p.iv;
    Appended([p.ssidLen], p.ssid);
    Appended(r1, lengths);
    Appended(r2, p.salt);
    Appended(r3, p.iv);
    Appended(r4, p.enc);
    Kept(r4, p.enc, 51, 67);
    Kept(r3, p.iv, 35, 51);
    Kept(r4, p.enc, 35, 51);
    Kept(r2, p.salt, 33, 35);
    Kept(r3, p.iv, 33, 35);
    Kept(r4, p.enc, 33, 35);
    Kept(r1, lengths, 0, 33);
    Kept(r2, p.salt, 0, 33);
    Kept(r3, p.iv, 0, 33);
    Kept(r4, p.enc, 0, 33);
    var r := RecordBytes(p);
    assert r[0] == r[0..33][0] && r[1..33] == r[0..33][1..];
    assert r[33] == r[33..35][0] && r[34] == r[33..35][1];
  }

  lemma Appended(s: seq<Byte>, t: seq<Byte>)
    ensures (s + t)[|s|..|s| + |t|] == t
  {
  }

  lemma Kept(s: seq<Byte>, t: seq<Byte>, lo: nat, hi: nat)
    requires lo <= hi <= |s|
    ensures (s + t)[lo..hi] == s[lo..hi]
  {
  }

  /** The records of the first n profiles. */
  function Records(ps: seq<Profile>, n: nat): (r: seq<Byte>)
    requires n <= |ps|
    ensures |r| == RECORD_SIZE * n
  {
    if n == 0 then [] else Records(ps, n - 1) + RecordBytes(ps[n - 1])
  }

  /** The file that save writes. */
  function Encoded(ps: seq<Profile>, n: nat, last: Byte): (f: seq<Byte>)
    requires n <= |ps| == MAX_PROFILES
    ensures |f| == 10 + RECORD_SIZE * n <= FILE_MAX
  {
    MAGIC + [ToByte(n), last] + Records(ps, n)
  }

  /** The buffer after reading a file: its first bytes, then zeros. */
  function Image(file: seq<Byte>): (buf: seq<Byte>)
    ensures |buf| == FILE_MAX
  {
    Extended(if |file| <= FILE_MAX then file else file[..FILE_MAX], FILE_MAX)
  }

  function RecordAt(buf: seq<Byte>, i: nat): (r: seq<Byte>)
    requires |buf| == FILE_MAX && i < MAX_PROFILES
    ensures |r| == RECORD_SIZE
  {
    buf[10 + RECORD_SIZE * i..10 + RECORD_SIZE * i + RECORD_SIZE]
  }

  /** The profiles after reading records i to cnt; reading stops at a record out of range. */
  function Reads(buf: seq<Byte>, ps: seq<Profile>, i: nat, cnt: nat): (r: seq<Profile>)
    requires |buf| == FILE_MAX && |ps| == MAX_PROFILES && i <= cnt <= MAX_PROFILES
    ensures |r| == MAX_PROFILES
    decreases cnt - i
  {
    if i == cnt then ps
    else
      match ParseRecord(RecordAt(buf, i))
      case None => ps
      case Some(p) => Reads(buf, ps[i := p], i + 1, cnt)
  }

  datatype Table = Table(profiles: seq<Profile>, count: nat, last: Byte)

  /** An index past the table is stored as 0xFF. */
  function Normal(last: Byte, count: nat): Byte { if ToNat(last) >= count then 0xFF else last }

  function LoadTable(ps: seq<Profile>, file: Option<seq<Byte>>): (t: Table)
    requires |ps| == MAX_PROFILES
    ensures |t.profiles| == MAX_PROFILES && t.count <= MAX_PROFILES
  {
    if file.None? || |file.value| < 10 || Image(file.value)[..8] != MAGIC then Table(ps, 0, 0xFF)
    else
      var buf := Image(file.value);
      var cnt := if ToNat(buf[8]) <= MAX_PROFILES then ToNat(buf[8]) else MAX_PROFILES;
      Table(Reads(buf, ps, 0, cnt), cnt, Normal(buf[9], cnt))
  }

  lemma {:induction false} RecordsSlice(ps: seq<Profile>, n: nat, i: nat)
    requires i < n <= |ps|
    ensures Records(ps, n)[RECORD_SIZE * i..RECORD_SIZE * i + RECORD_SIZE] == RecordBytes(ps[i])
  {
    hide RecordBytes;
    if i < n - 1 {
      RecordsSlice(ps, n - 1, i);
      assert Records(ps, n)[RECORD_SIZE * i..RECORD_SIZE * i + RECORD_SIZE] ==
             Records(ps, n - 1)[RECORD_SIZE * i..RECORD_SIZE * i + RECORD_SIZE];
    }
  }

  lemma RecordAtEncoded(ps: seq<Profile>, n: nat, last: Byte, i: nat)
    requires i < n <= |ps| == MAX_PROFILES
    ensures RecordAt(Image(Encoded(ps, n, last)), i) == RecordBytes(ps[i])
  {
    hide RecordBytes, Records, Extended, ToByte;
    var f := Encoded(ps, n, last);
    RecordsSlice(ps, n, i);
    var o := RECORD_SIZE * i;
    assert f[10 + o..10 + o + RECORD_SIZE] == Records(ps, n)[o..o + RECORD_SIZE];
    assert RecordAt(Image(f), i) == Image(f)[..|f|][10 + o..10 + o + RECORD_SIZE];
  }

  /** The layout of the file: the eight letters, the number of profiles, the last connection, and
      131 bytes for each profile, with the name at 1, the length of the secret low byte first at 33,
      then salt, vector and secret. */
  lemma FileLayout(ps: seq<Profile>, n: nat, last: Byte, i: nat)
    requires i < n <= |ps| == 8
    ensures var f := Encoded(ps, n, last);
            var o := 10 + 131 * i;
            && |f| == 10 + 131 * n && f[8] == ToByte(n) && f[9] == last
            && (forall k :: 0 <= k < 8 ==> ToNat(f[k]) == "DBSNET01"[k] as int)
            && f[o] == ps[i].ssidLen && f[o + 1..o + 33] == ps[i].ssid
            && ToNat(f[o + 33]) + 256 * ToNat(f[o + 34]) == Wide(ps[i].encLen)
            && f[o + 35..o + 51] == ps[i].salt && f[o + 51..o + 67] == ps[i].iv && f[o + 67..o + 131] == ps[i].enc
  {
    hide RecordBytes, Records, ToByte, ToNat, Wide, Low, High, MAGIC;
    var f := Encoded(ps, n, last);
    var o := 10 + 131 * i;
    RecordsSlice(ps, n, i);
    MagicText();
    assert |MAGIC| == 8;
    assert f[..8] == MAGIC;
    assert forall k :: 0 <= k < 8 ==> f[k] == f[..8][k];
    assert f[10..] == Records(ps, n);
    var r := f[o..o + 131];
    assert r == f[10..][131 * i..131 * i + 131] == RecordBytes(ps[i]);
    RecordFields(ps[i]);
    LowHigh(ps[i].encLen);
    InRecord(f, o, r);
  }

  lemma MagicText()
    ensures |MAGIC| == 8 && forall k :: 0 <= k < 8 ==> ToNat(MAGIC[k]) == "DBSNET01"[k] as int
  {
  }

  lemma LowHigh(e: bv16)
    ensures ToNat(Low(e)) + 256 * ToNat(High(e)) == Wide(e)
  {
  }

  lemma InRecord(f: seq<Byte>, o: nat, r: seq<Byte>)
    requires o + 131 <= |f| && r == f[o..o + 131]
    ensures f[o] == r[0] && f[o + 1..o + 33] == r[1..33] && f[o + 33] == r[33] && f[o + 34] == r[34]
    ensures f[o + 35..o + 51] == r[35..51] && f[o + 51..o + 67] == r[51..67] && f[o + 67..o + 131] == r[67..131]
  {
    Slice(f, o, r, 1, 33);
    Slice(f, o, r, 35, 51);
    Slice(f, o, r, 51, 67);
    Slice(f, o, r, 67, 131);
  }

  lemma Slice(f: seq<Byte>, o: nat, r: seq<Byte>, a: nat, b: nat)
    requires a <= b <= |r| && o + |r| <= |f| && r == f[o..o + |r|]
    ensures f[o + a..o + b] == r[a..b]
  {
    forall k | 0 <= k < b - a ensures f[o + a..o + b][k] == r[a..b][k] {
      assert r[a + k] == f[o..o + |r|][a + k];
    }
  }

  lemma {:induction false} ReadsBack(ps: seq<Profile>, n: nat, last: Byte, into: seq<Profile>, i: nat)
    requires i <= n <= |ps| == |into| == MAX_PROFILES
    requires forall j :: 0 <= j < n ==> Sane(ps[j])
    requires into[..i] == ps[..i]
    ensures Reads(Image(Encoded(ps, n, last)), into, i, n)[..n] == ps[..n]
    decreases n - i
  {
    hide Encoded, Image, RecordAt, ParseRecord, RecordBytes, Sane;
    if i < n {
      RecordAtEncoded(ps, n, last, i);
      ParseBack(ps[i]);
      assert into[i := ps[i]][..i + 1] == into[..i] + [ps[i]];
      assert ps[..i + 1] == ps[..i] + [ps[i]];
      ReadsBack(ps, n, last, into[i := ps[i]], i + 1);
    }
  }

  lemma HeaderBack(ps: seq<Profile>, n: nat, last: Byte)
    requires n <= |ps| == MAX_PROFILES
    ensures var b := Image(Encoded(ps, n, last));
            b[..8] == MAGIC && b[8] == ToByte(n) && b[9] == last
  {
    hide Records, Extended, ToByte;
    var f := Encoded(ps, n, last);
    assert Image(f)[..|f|] == f;
    assert Image(f)[..8] == Image(f)[..|f|][..8];
    assert Image(f)[8] == Image(f)[..|f|][8] && Image(f)[9] == Image(f)[..|f|][9];
  }

  /** Reading a saved file gives back every profile, their number, and the last connection
      where it is in the table, whatever the table held before. */
  lemma LoadSaved(ps: seq<Profile>, n: nat, last: Byte, into: seq<Profile>)
    requires n <= |ps| == |into| == MAX_PROFILES
    requires forall j :: 0 <= j < n ==> Sane(ps[j])
    ensures var t := LoadTable(into, Some(Encoded(ps, n, last)));
            t.count == n && t.profiles[..n] == ps[..n] && t.last == Normal(last, n)
  {
    hide Encoded, Image, Reads, Sane, ToByte, ToNat;
    HeaderBack(ps, n, last);
    SmallByte(n);
    ReadsBack(ps, n, last, into, 0);
  }

  // ---------- the store ----------

  /** Putting bytes into a buffer at an offset. */
  function Put(buf: seq<Byte>, o: nat, bytes: seq<Byte>): (r: seq<Byte>)
    requires o + |bytes| <= |buf|
    ensures |r| == |buf| && r[..o + |bytes|] == buf[..o] + bytes
  {
    buf[..o] + bytes + buf[o + |bytes|..]
  }

  ghost predicate SaneTable(ps: seq<Profile>) {
    |ps| == MAX_PROFILES && forall i :: 0 <= i < MAX_PROFILES ==> Sane(ps[i])
  }

  /** One of the first n profiles has this name. */
  ghost predicate Known(ps: seq<Profile>, n: nat, ssid: seq<Byte>)
    requires SaneTable(ps) && n <= MAX_PROFILES
  {
    exists i :: 0 <= i < n && Name(ps[i]) == ssid
  }

  /** No two of the first n profiles share a name. */
  ghost predicate DistinctNames(ps: seq<Profile>, n: nat)
    requires SaneTable(ps) && n <= MAX_PROFILES
  {
    forall i, j :: 0 <= i < j < n ==> Name(ps[i]) != Name(ps[j])
  }

  /** add takes a network of these lengths, known or with a slot left. */
  ghost predicate Accepts(ps: seq<Profile>, n: nat, ssid: seq<Byte>, psk: seq<Byte>)
    requires SaneTable(ps) && n <= MAX_PROFILES
  {
    0 < |ssid| <= 32 && |psk| <= 63 && (n < 8 || Known(ps, n, ssid))
  }

  /** What the file system does with the new file: it takes the bytes, up to a number, or does
      not open it, the old file being gone already. */
  datatype Disk = Takes(bytes: nat) | Refuses

  predicate Whole(disk: Disk, size: nat) { disk.Takes? && disk.bytes >= size }

  function FileAfter(disk: Disk, bytes: seq<Byte>): Option<seq<Byte>> {
    match disk
    case Refuses => None
    case Takes(n) => if n >= |bytes| then Some(bytes) else Some(bytes[..n])
  }

  /** The table after a successful add: one slot, new or of the same name, holds the secret;
      the others are untouched. */
  ghost predicate Added(mac: seq<Byte>, ps: seq<Profile>, n: nat, ps': seq<Profile>, n': nat, slot: nat,
                        ssid: seq<Byte>, psk: seq<Byte>)
    requires SaneTable(ps) && SaneTable(ps')
  {
    && slot <= n < n' + 1 <= n + 2 && slot < n' <= MAX_PROFILES
    && (n' == n <==> slot < n)
    && (slot < n ==> Name(ps[slot]) == ssid)
    && ps' == ps[slot := ps'[slot]]
    && !Known(ps', slot, ssid)
    && Name(ps'[slot]) == ssid && Secret(mac, ps'[slot]) == Some(psk)
  }

  lemma AddedAt(mac: seq<Byte>, ps: seq<Profile>, n: nat, slot: nat, ssid: seq<Byte>, psk: seq<Byte>, salt: Block,
                iv: Block)
    requires SaneTable(ps) && n <= MAX_PROFILES && slot <= n && slot < MAX_PROFILES
    requires 0 < |ssid| <= MAX_NAME && |psk| <= MAX_SECRET
    requires slot < n ==> Name(ps[slot]) == ssid
    requires !Known(ps, slot, ssid)
    ensures var ps' := ps[slot := NewProfile(mac, ssid, psk, salt, iv)];
            var n' := if slot < n then n else n + 1;
            SaneTable(ps') && Added(mac, ps, n, ps', n', slot, ssid, psk) &&
            (DistinctNames(ps, n) ==> DistinctNames(ps', n'))
  {
    hide NewProfile, Secret, Sane, Name;
    NewProfileReveals(mac, ssid, psk, salt, iv);
  }

  class Store {
    const mac: seq<Byte>
    var profiles: seq<Profile>
    var nprof: nat
    var last: Byte
    /** The bytes of /etc/net.conf. */
    var file: Option<seq<Byte>>

    ghost predicate Valid()
      reads this
    {
      |profiles| == MAX_PROFILES && SaneTable(profiles) && nprof <= MAX_PROFILES
    }

    constructor (mac: seq<Byte>, file: Option<seq<Byte>>)
      ensures Valid() && nprof == 0 && this.mac == mac && this.file == file
    {
      hide ToNat, Wide;
      ZeroLengths();
      this.mac := mac;
      this.profiles := seq(MAX_PROFILES, _ => EmptyProfile());
      this.nprof := 0;
      this.last := 0xFF;
      this.file := file;
    }

    /** find */
    method Find(ssid: seq<Byte>) returns (r: Option<nat>)
      requires Valid()
      ensures r.Some? <==> Known(profiles, nprof, ssid)
      ensures r.Some? ==> r.value < nprof && Name(profiles[r.value]) == ssid
      ensures r.Some? ==> !Known(profiles, r.value, ssid)
    {
      hide ToNat, Wide;
      for i := 0 to nprof
        invariant !Known(profiles, i, ssid)
      {
        var p := profiles[i];
        if ToNat(p.ssidLen) == |ssid| && p.ssid[..|ssid|] == ssid {
          return Some(i);
        }
      }
      return None;
    }

    /** save: true when the whole file was written. */
    method Save(disk: Disk) returns (ok: bool)
      requires Valid()
      modifies this`file
      ensures file == FileAfter(disk, Encoded(profiles, nprof, last)) &&
              (ok <==> Whole(disk, |Encoded(profiles, nprof, last)|))
      ensures ok <==> file == Some(Encoded(profiles, nprof, last))
    {
      hide RecordBytes, ToByte, Sane;
      var buf: seq<Byte> := seq(FILE_MAX, _ => 0);
      buf := Put(buf, 0, MAGIC);
      buf := Put(buf, 8, [ToByte(nprof)]);
      buf := Put(buf, 9, [last]);
      var o := 10;
      assert buf[..o] == MAGIC + [ToByte(nprof), last];
      for i := 0 to nprof
        invariant |buf| == FILE_MAX && o == 10 + RECORD_SIZE * i
        invariant buf[..o] == MAGIC + [ToByte(nprof), last] + Records(profiles, i)
      {
        buf := PutRecord(buf, o, profiles[i]);
        o := o + RECORD_SIZE;
      }
      file := FileAfter(disk, buf[..o]);
      ok := Whole(disk, o);
    }

    /** add, the salt and vector drawn and the answer of the disk being parameters. The answer is
        that of save, which comes after the table has changed. */
    method Add(ssid: seq<Byte>, psk: seq<Byte>, salt: Block, iv: Block, disk: Disk) returns (ok: bool)
      requires Valid()
      modifies this`profiles, this`nprof, this`file
      ensures Valid()
      ensures old(DistinctNames(profiles, nprof)) ==> DistinctNames(profiles, nprof)
      ensures ok <==> Accepts(old(profiles), old(nprof), ssid, psk) && Whole(disk, |Encoded(profiles, nprof, last)|)
      ensures !Accepts(old(profiles), old(nprof), ssid, psk) ==>
              profiles == old(profiles) && nprof == old(nprof) && file == old(file)
      ensures Accepts(old(profiles), old(nprof), ssid, psk) ==>
                && (exists slot ::
                    0 <= slot < nprof &&
                    Added(mac, old(profiles), old(nprof), profiles, nprof, slot, ssid, psk))
                && file == FileAfter(disk, Encoded(profiles, nprof, last))
    {
      hide NewProfile, Encoded, DistinctNames, Known, Added, SaneTable, FileAfter, Whole;
      if |ssid| == 0 || |ssid| > MAX_NAME || |psk| > MAX_SECRET {
        return false;
      }
      var found := Find(ssid);
      var slot;
      if found.Some? {
        slot := found.value;
      } else {
        if nprof >= MAX_PROFILES {
          return false;
        }
        slot := nprof;
        nprof := nprof + 1;
      }
      var p := BuildProfile(mac, ssid, psk, salt, iv);
      AddedAt(mac, profiles, old(nprof), slot, ssid, psk, salt, iv);
      profiles := profiles[slot := p];
      ok := Save(disk);
    }

    /** reveal */
    method Reveal(idx: nat, out: array<Byte>) returns (r: Option<nat>)
      requires Valid() && out.Length == MAX_SECRET
      modifies out
      ensures r.Some? <==> idx < nprof && Secret(mac, profiles[idx]).Some?
      ensures r.Some? ==> r.value <= MAX_SECRET && out[..r.value] == Secret(mac, profiles[idx]).value
    {
      hide Secret, Sane;
      if idx >= nprof {
        return None;
      }
      var tmp := Unseal(mac, profiles[idx]);
      if tmp.None? {
        return None;
      }
      var n := |tmp.value|;
      for k := 0 to n
        invariant out[..k] == tmp.value[..k]
      {
        out[k] := tmp.value[k];
      }
      return Some(n);
    }

    /** load */
    method Load()
      requires Valid()
      modifies this`profiles, this`nprof, this`last
      ensures Valid()
      ensures Table(profiles, nprof, last) == LoadTable(old(profiles), file)
    {
      hide RecordAt, ParseRecord, Sane, ToNat, Image;
      nprof := 0;
      last := 0xFF;
      if file.None? {
        return;
      }
      var buf := Image(file.value);
      if |file.value| < 10 || buf[..8] != MAGIC {
        return;
      }
      var cnt := if ToNat(buf[8]) <= MAX_PROFILES then ToNat(buf[8]) else MAX_PROFILES;
      last := buf[9];
      var i := 0;
      while i < cnt
        invariant 0 <= i <= cnt && |profiles| == MAX_PROFILES && last == buf[9]
        invariant forall j :: 0 <= j < MAX_PROFILES ==> Sane(profiles[j])
        invariant Reads(buf, old(profiles), 0, cnt) == Reads(buf, profiles, i, cnt)
      {
        var p := ParseRecord(RecordAt(buf, i));
        if p.None? {
          assert Reads(buf, profiles, i, cnt) == profiles;
          break;
        }
        profiles := profiles[i := p.value];
        i := i + 1;
      }
      assert Reads(buf, old(profiles), 0, cnt) == profiles;
      nprof := cnt;
      if ToNat(last) >= nprof {
        last := 0xFF;
      }
    }
  }

  /** device_key as the code runs it. */
  method DeviceKeyFor(mac: seq<Byte>, salt: Block) returns (key: Block)
    ensures key == DeviceKey(mac, salt)
  {
    hide Derived;
    var dk := new Byte[32](_ => 0);
    Pbkdf2(mac, salt, 1000, dk);
    assert salt[..16] == salt;
    key := dk[..16];
    assert key == dk[..32][..16];
  }

  /** The body of reveal up to its copy into the caller's buffer. */
  method Unseal(mac: seq<Byte>, p: Profile) returns (r: Option<seq<Byte>>)
    requires Sane(p)
    ensures r == Secret(mac, p) && (r.Some? ==> |r.value| <= MAX_SECRET)
  {
    hide ToNat, Wide, DeviceKey, Opened;
    if p.encLen == 0 {
      return Some([]);
    }
    var key := DeviceKeyFor(mac, p.salt);
    var tmp := new Byte[SEALED_MAX](_ => 0);
    var n := CbcDecrypt(key, p.iv, p.enc[..Wide(p.encLen)], tmp);
    if n.None? || n.value > MAX_SECRET {
      return None;
    }
    return Some(tmp[..n.value]);
  }

  /** The profile that add fills in. */
  method BuildProfile(mac: seq<Byte>, ssid: seq<Byte>, psk: seq<Byte>, salt: Block, iv: Block) returns (p: Profile)
    requires 0 < |ssid| <= MAX_NAME && |psk| <= MAX_SECRET
    ensures p == NewProfile(mac, ssid, psk, salt, iv)
  {
    hide DeviceKey, Sealed, ToByte, Narrow;
    p := EmptyProfile().(ssid := Extended(ssid, 32), ssidLen := ToByte(|ssid|));
    if |psk| != 0 {
      var key := DeviceKeyFor(mac, salt);
      var enc := new Byte[SEALED_MAX](_ => 0);
      ghost var c := SealedSecret(mac, psk, salt, iv);
      var el := CbcEncrypt(key, iv, psk, enc);
      assert enc[..] == Extended(c, 64);
      p := p.(enc := enc[..], encLen := Narrow(el.value), salt := salt, iv := iv);
    }
  }

  /** The first profile of a name stays the first in every table with the same beginning. */
  lemma FirstOfName(ps: seq<Profile>, qs: seq<Profile>, n: nat, slot: nat, r: nat, ssid: seq<Byte>)
    requires SaneTable(ps) && SaneTable(qs) && n <= MAX_PROFILES && ps[..n] == qs[..n] && slot < n && r < n
    requires Name(ps[slot]) == ssid && !Known(ps, slot, ssid)
    requires Name(qs[r]) == ssid && !Known(qs, r, ssid)
    ensures r == slot && qs[r] == ps[slot]
  {
    hide Sane, Name;
    assert forall i :: 0 <= i < n ==> ps[i] == ps[..n][i] == qs[i];
  }

  /** A passphrase of at most 63 bytes survives add, a restart that reads the file into a new
      store of the same machine, and reveal. */
  method RememberAcrossRestart(store: Store, ssid: seq<Byte>, psk: seq<Byte>, salt: Block, iv: Block, disk: Disk,
                               out: array<Byte>)
    returns (ok: bool, r: Option<nat>)
    requires store.Valid() && out.Length == MAX_SECRET
    modifies store, out
    ensures store.Valid()
    ensures ok <==> Accepts(old(store.profiles), old(store.nprof), ssid, psk) &&
                    Whole(disk, |Encoded(store.profiles, store.nprof, store.last)|)
    ensures ok ==> r == Some(|psk|) && out[..|psk|] == psk
  {
    hide Encoded, Sane, Known, Name, Secret, SaneTable, Accepts;
    ok := store.Add(ssid, psk, salt, iv, disk);
    r := None;
    if ok {
      ghost var ps := store.profiles;
      ghost var slot :| 0 <= slot < store.nprof &&
          Added(store.mac, old(store.profiles), old(store.nprof), ps, store.nprof, slot, ssid, psk);
      r := Recall(store.mac, store.file, ssid, out, ps, store.nprof, store.last, slot, psk);
    }
  }

  /** A new store loads the file, finds the network and reveals its secret. */
  method Recall(mac: seq<Byte>, file: Option<seq<Byte>>, ssid: seq<Byte>, out: array<Byte>,
                ghost ps: seq<Profile>, ghost n: nat, ghost last: Byte, ghost slot: nat, ghost psk: seq<Byte>)
                returns (r: Option<nat>)
    requires out.Length == MAX_SECRET && SaneTable(ps) && slot < n <= MAX_PROFILES
    requires file == Some(Encoded(ps, n, last))
    requires Name(ps[slot]) == ssid && !Known(ps, slot, ssid) && Secret(mac, ps[slot]) == Some(psk)
    modifies out
    ensures r == Some(|psk|) && out[..|psk|] == psk
  {
    hide Encoded, Sane, Known, Name, Secret, SaneTable;
    var again := new Store(mac, file);
    SavedTable(ps, n, last, again.profiles);
    again.Load();
    KnownAt(ps, again.profiles, n, slot, ssid);
    var idx := again.Find(ssid);
    FirstOfName(ps, again.profiles, n, slot, idx.value, ssid);
    r := again.Reveal(idx.value, out);
  }

  lemma SavedTable(ps: seq<Profile>, n: nat, last: Byte, into: seq<Profile>)
    requires SaneTable(ps) && n <= MAX_PROFILES && |into| == MAX_PROFILES
    ensures var t := LoadTable(into, Some(Encoded(ps, n, last)));
            t.count == n && t.profiles[..n] == ps[..n]
  {
    hide Encoded, Sane, LoadTable;
    LoadSaved(ps, n, last, into);
  }

  lemma KnownAt(ps: seq<Profile>, qs: seq<Profile>, n: nat, slot: nat, ssid: seq<Byte>)
    requires SaneTable(ps) && SaneTable(qs) && n <= MAX_PROFILES && ps[..n] == qs[..n] && slot < n
    requires Name(ps[slot]) == ssid
    ensures Known(qs, n, ssid)
  {
    hide Sane, Name;
    assert ps[slot] == ps[..n][slot] == qs[slot];
  }

  lemma ZeroLengths()
    ensures Sane(EmptyProfile())
  {
  }

  /** The seven copies that save makes for one profile. */
  method PutRecord(buf0: seq<Byte>, o0: nat, p: Profile) returns (buf: seq<Byte>)
    requires o0 + RECORD_SIZE <= |buf0|
    ensures |buf| == |buf0| && buf[..o0 + RECORD_SIZE] == buf0[..o0] + RecordBytes(p)
  {
    hide Low, High, Put;
    var o := o0;
    buf := Put(buf0, o, [p.ssidLen]);
    o := o + 1;
    buf := Put(buf, o, p.ssid);
    o := o + 32;
    buf := Put(buf, o, [Low(p.encLen)]);
    buf := Put(buf, o + 1, [High(p.encLen)]);
    o := o + 2;
    buf := Put(buf, o, p.salt);
    o := o + 16;
    buf := Put(buf, o, p.iv);
    o := o + 16;
    buf := Put(buf, o, p.enc);
  }
}
