/** HMAC (section 2 of RFC 2104) and PBKDF2 (section 5.2 of RFC 8018) over SHA-256, and the
    two-part hash the kernel uses for long HMAC messages. */
module Hmac {
  import opened Bytes
  import opened AesField
  import opened Sha256
  import opened Hash

  // ---------- the two-part hash ----------

  /** Feeding the stream x from state h0 leaves state h and the unfinished block buf[..fill]. */
  ghost predicate Fed(h0: State, x: seq<Byte>, h: State, buf: Chunk, fill: nat) {
    fill == |x| % 64 && h == Absorbed(h0, x, |x| / 64) && buf[..fill] == x[|x| - fill..]
  }

  /** Taking some more bytes, at most up to the end of the block. */
  lemma FedMore(h0: State, x: seq<Byte>, h: State, buf: Chunk, fill: nat, piece: seq<Byte>, h': State, buf': Chunk,
                fill': nat)
    requires Fed(h0, x, h, buf, fill) && fill + |piece| <= 64
    requires buf' == buf[..fill] + piece + buf[fill + |piece|..]
    requires if fill + |piece| == 64 then h' == Compress(h, buf') && fill' == 0 else h' == h && fill' == fill + |piece|
    ensures Fed(h0, x + piece, h', buf', fill')
  {
    hide Compress;
    var y := x + piece;
    var n := |x| / 64;
    assert |x| == 64 * n + fill;
    AbsorbedPrefix(h0, x, y, n);
    if fill + |piece| == 64 {
      assert |y| == 64 * (n + 1);
      assert y[64 * n..64 * (n + 1)] == x[|x| - fill..] + piece == buf';
    } else {
      assert |y| / 64 == n && |y| % 64 == fill';
      assert y[|y| - fill'..] == x[|x| - fill..] + piece;
    }
  }

  /** The closure feed of sha256_two_part. */
  method Feed(ghost h0: State, ghost x: seq<Byte>, h: State, buf: Chunk, fill: nat, data: seq<Byte>)
    returns (h': State, buf': Chunk, fill': nat)
    requires Fed(h0, x, h, buf, fill)
    ensures Fed(h0, x + data, h', buf', fill')
  {
    hide Compress, Absorbed;
    h', buf', fill' := h, buf, fill;
    var o := 0;
    assert x + data[..0] == x;
    while o < |data|
      invariant 0 <= o <= |data|
      invariant Fed(h0, x + data[..o], h', buf', fill')
    {
      var take := if 64 - fill' <= |data| - o then 64 - fill' else |data| - o;
      ghost var (h1, b1, f1) := (h', buf', fill');
      var piece := data[o..o + take];
      buf' := buf'[..fill'] + piece + buf'[fill' + take..];
      fill' := fill' + take;
      if fill' == 64 {
        h' := CompressBlock(h', buf');
        fill' := 0;
      }
      FedMore(h0, x + data[..o], h1, b1, f1, piece, h', buf', fill');
      assert x + data[..o] + piece == x + data[..o + take];
      o := o + take;
    }
    assert data[..o] == data;
  }

  /** The zero bytes that routine writes: one more than the padding rule asks, modulo 64. */
  function LooseZeros(len: nat): (k: nat)
    ensures k < 64
  {
    (56 + 64 - len % 64) % 64
  }

  function LoosePadding(len: nat): (p: seq<Byte>)
    ensures |p| == LooseZeros(len) + 9
  {
    [0x80] + seq(LooseZeros(len), _ => 0) + BigEndian(BitLength(len), 8)
  }

  /** The bytes that the two-part hash compresses: whole blocks of the loosely padded message. */
  function Compressed(m: seq<Byte>): seq<Byte> {
    (m + LoosePadding(|m|))[..|m| + LooseZeros(|m|) + 8]
  }

  lemma CompressedLength(m: seq<Byte>)
    ensures |Compressed(m)| % 64 == 0 && |m + LoosePadding(|m|)| == |Compressed(m)| + 1
  {
    hide LoosePadding;
    LooseLength(|m|);
  }

  function TwoPart(m: seq<Byte>): Digest {
    Output(Absorbed(INITIAL, Compressed(m), |Compressed(m)| / 64))
  }

  /** The loose padding always ends one byte into a block, never at its end. */
  lemma LooseLength(len: nat)
    ensures (len + LooseZeros(len) + 9) % 64 == 1
    ensures LooseZeros(len) == if len % 64 == 56 then 0 else Zeros(len) + 1
  {
    var r := len % 64;
    assert LooseZeros(len) == if r == 56 then 0 else if r < 56 then 56 - r else 120 - r;
    assert Zeros(len) == if r <= 55 then 55 - r else 119 - r;
  }

  lemma {:induction false} ZeroBytes(n: nat, k: nat, bound: nat)
    requires forall i :: 0 <= i < k ==> BigEndian(n, k)[i] == 0
    requires bound == Power256(k) && n < bound
    ensures n == 0
  {
    hide ToByte;
    if k > 0 {
      assert BigEndian(n, k)[k - 1] == ToByte(n % 256);
      ZeroByte(n % 256);
      var rest := BigEndian(n / 256, k - 1);
      forall i | 0 <= i < k - 1 ensures rest[i] == 0 {
        assert rest[i] == BigEndian(n, k)[i];
      }
      ZeroBytes(n / 256, k - 1, Power256(k - 1));
    }
  }

  function Power256(k: nat): nat { if k == 0 then 1 else 256 * Power256(k - 1) }

  lemma ZeroByte(n: nat)
    requires n < 256 && ToByte(n) == 0
    ensures n == 0
  {
    assert (n as bv8) as nat == n;
  }

  /** Hence that routine compresses the padded message exactly when the length field is all
      zero: the empty message, or lengths that are multiples of 2^61. */
  lemma TwoPartPadding(m: seq<Byte>)
    ensures Compressed(m) == Padded(m) <==> BitLength(|m|) == 0
  {
    hide BigEndian, BitLength, LooseZeros, Zeros, Compressed, Padded;
    var len := |m|;
    if len % 64 == 56 {
      NonzeroLength(len);
      LengthsDiffer(m);
    } else if BitLength(len) == 0 {
      SameWhenZero(m);
    } else if Compressed(m) == Padded(m) {
      FieldNonzero(len);
      var i :| 0 <= i < 8 && BigEndian(BitLength(len), 8)[i] != 0;
      FieldZero(m, i);
    }
  }

  lemma LengthsDiffer(m: seq<Byte>)
    requires |m| % 64 == 56
    ensures |Compressed(m)| != |Padded(m)|
  {
    hide BigEndian, BitLength, Padding, LoosePadding;
    LooseLength(|m|);
  }

  lemma SameWhenZero(m: seq<Byte>)
    requires |m| % 64 != 56 && BitLength(|m|) == 0
    ensures Compressed(m) == Padded(m)
  {
    hide BigEndian, BitLength, LooseZeros, Zeros;
    LooseLength(|m|);
    ZeroField();
  }

  /** One byte off: the routine's field overlaps the field of the padded message. */
  lemma Overlap(m: seq<Byte>, j: nat)
    requires |m| % 64 != 56 && j < 8
    ensures var at := |m| + 1 + Zeros(|m|) + j;
            var field := BigEndian(BitLength(|m|), 8);
            at < |Padded(m)| && Padded(m)[at] == field[j] &&
            at < |Compressed(m)| && Compressed(m)[at] == if j == 0 then 0 else field[j - 1]
  {
    hide BigEndian, BitLength, LooseZeros, Zeros;
    LooseLength(|m|);
  }

  lemma {:induction false} FieldZero(m: seq<Byte>, j: nat)
    requires |m| % 64 != 56 && j < 8 && Compressed(m) == Padded(m)
    ensures BigEndian(BitLength(|m|), 8)[j] == 0
  {
    hide BigEndian, BitLength, Zeros, Compressed, Padded;
    Overlap(m, j);
    if j > 0 {
      FieldZero(m, j - 1);
    }
  }

  lemma ZeroField()
    ensures BigEndian(0, 8) == seq(8, _ => 0 as bv8)
  {
    ZeroFieldOf(8);
  }

  lemma {:induction false} ZeroFieldOf(k: nat)
    ensures BigEndian(0, k) == seq(k, _ => 0 as bv8)
  {
    if k > 0 {
      ZeroFieldOf(k - 1);
    }
  }

  lemma NonzeroLength(len: nat)
    requires len % 64 == 56
    ensures BitLength(len) != 0
  {
  }

  lemma FieldNonzero(len: nat)
    requires BitLength(len) != 0
    ensures exists i :: 0 <= i < 8 && BigEndian(BitLength(len), 8)[i] != 0
  {
    hide BigEndian;
    if forall i :: 0 <= i < 8 ==> BigEndian(BitLength(len), 8)[i] == 0 {
      Power256Eight();
      ZeroBytes(BitLength(len), 8, Power256(8));
    }
  }

  lemma Power256Eight()
    ensures Power256(8) == 0x1_0000_0000_0000_0000
  {
    assert Power256(2) == 0x1_0000;
    assert Power256(4) == 0x1_0000_0000;
    assert Power256(6) == 0x1_0000_0000_0000;
  }

  /** sha256_two_part */
  method HashTwoPart(a: seq<Byte>, b: seq<Byte>) returns (out: Digest, fill: nat)
    ensures out == TwoPart(a + b)
    ensures fill == 1
  {
    hide Compress, Absorbed, BigEndian, BitLength, Output, LoosePadding;
    var h: State := INITIAL;
    var bitLen := BitLength(|a| + |b|);
    var buf: Chunk := seq(64, _ => 0);
    fill := 0;
    Unfed(INITIAL, buf);
    h, buf, fill := Feed(INITIAL, [], h, buf, fill, a);
    h, buf, fill := Feed(INITIAL, [] + a, h, buf, fill, b);
    assert [] + a + b == a + b;
    var k := (56 + 64 - fill % 64) % 64;
    var pad: seq<Byte> := [0x80] + seq(127, _ => 0);
    pad := PutLength(pad, 1 + k, bitLen);
    LooseIs(|a + b|, k, pad);
    h, buf, fill := Feed(INITIAL, a + b, h, buf, fill, pad[..1 + k + 8]);
    FedWhole(a + b, h, buf, fill);
    out := PutState(h);
  }

  lemma Unfed(h0: State, buf: Chunk)
    ensures Fed(h0, [], h0, buf, 0)
  {
  }

  lemma LooseIs(len: nat, k: nat, pad: seq<Byte>)
    requires k == LooseZeros(len)
    requires pad == ([0x80] + seq(127, _ => 0))[..1 + k] + BigEndian(BitLength(len), 8) +
             ([0x80] + seq(127, _ => 0))[9 + k..]
    ensures pad[..9 + k] == LoosePadding(len)
  {
    hide BigEndian, BitLength, LooseZeros;
  }

  lemma FedWhole(m: seq<Byte>, h: State, buf: Chunk, fill: nat)
    requires Fed(INITIAL, m + LoosePadding(|m|), h, buf, fill)
    ensures Output(h) == TwoPart(m) && fill == 1
  {
    hide Compress, Output, LoosePadding, LooseZeros;
    var s := m + LoosePadding(|m|);
    LooseLength(|m|);
    CompressedLength(m);
    var n := |s| / 64;
    assert |Compressed(m)| == 64 * n;
    AbsorbedPrefix(INITIAL, s, Compressed(m), n);
  }

  // ---------- HMAC ----------

  function KeyBlock(key: seq<Byte>): Chunk {
    var k := if |key| > 64 then Sha(key) else key;
    k + seq(64 - |k|, _ => 0)
  }

  function Masked(k: Chunk, mask: Byte): Chunk {
    seq(64, i requires 0 <= i < 64 => Xor(mask, k[i]))
  }

  /** The message authentication code of section 2 of RFC 2104, with B = 64. */
  function Mac(key: seq<Byte>, msg: seq<Byte>): Digest {
    var k := KeyBlock(key);
    Sha(Masked(k, 0x5c) + Sha(Masked(k, 0x36) + msg))
  }

  /** The two blocks of RFC 2104: the key, filled up with zeros, added to 0x36 and to 0x5c. */
  lemma MacMeaning(key: seq<Byte>, msg: seq<Byte>, inner: Chunk, outer: Chunk)
    requires |key| <= 64
    requires forall j :: 0 <= j < 64 ==> inner[j] ^ (if j < |key| then key[j] else 0) == 0x36
    requires forall j :: 0 <= j < 64 ==> outer[j] ^ (if j < |key| then key[j] else 0) == 0x5c
    ensures Mac(key, msg) == Sha(outer + Sha(inner + msg))
  {
    hide Sha;
    var k := KeyBlock(key);
    forall j | 0 <= j < 64 ensures inner[j] == Masked(k, 0x36)[j] && outer[j] == Masked(k, 0x5c)[j] {
      Unmasked(inner[j], k[j], 0x36);
      Unmasked(outer[j], k[j], 0x5c);
    }
    assert inner == Masked(k, 0x36) && outer == Masked(k, 0x5c);
  }

  lemma Unmasked(a: Byte, k: Byte, mask: Byte)
    requires a ^ k == mask
    ensures a == Xor(mask, k)
  {
  }

  /** A key longer than a block stands for its digest. */
  lemma LongKey(key: seq<Byte>, msg: seq<Byte>)
    requires |key| > 64
    ensures Mac(key, msg) == Mac(Sha(key), msg)
  {
    hide Sha, Masked;
    var d: seq<Byte> := Sha(key);
    assert |d| == 32;
    assert KeyBlock(key) == KeyBlock(d);
  }

  /** What the kernel computes: long messages go through the two-part hash. */
  function KernelMac(key: seq<Byte>, msg: seq<Byte>): Digest {
    var k := KeyBlock(key);
    var inner := if |msg| <= 64 then Sha(Masked(k, 0x36) + msg) else TwoPart(Masked(k, 0x36) + msg);
    Sha(Masked(k, 0x5c) + inner)
  }

  /** hmac_sha256: the code of RFC 2104 for every key and every message of at most 64 bytes. */
  method HmacSha256(key: seq<Byte>, msg: seq<Byte>) returns (out: Digest)
    ensures out == KernelMac(key, msg)
    ensures |msg| <= 64 ==> out == Mac(key, msg)
  {
    hide Sha, TwoPart, Xor;
    var k: Chunk;
    if |key| > 64 {
      var h := HashMessage(key);
      k := h + seq(32, _ => 0);
    } else {
      k := key + seq(64 - |key|, _ => 0);
    }
    assert k == KeyBlock(key);
    var ipad: Chunk := seq(64, _ => 0x36);
    var opad: Chunk := seq(64, _ => 0x5c);
    for i := 0 to 64
      invariant forall j :: 0 <= j < 64 ==> ipad[j] == if j < i then Xor(0x36, k[j]) else 0x36
      invariant forall j :: 0 <= j < 64 ==> opad[j] == if j < i then Xor(0x5c, k[j]) else 0x5c
    {
      ipad := ipad[i := Xor(ipad[i], k[i])];
      opad := opad[i := Xor(opad[i], k[i])];
    }
    assert ipad == Masked(k, 0x36);
    assert opad == Masked(k, 0x5c);
    var inner: Digest;
    if |msg| <= 64 {
      inner := HashMessage(ipad + msg);
    } else {
      var fill;
      inner, fill := HashTwoPart(ipad, msg);
    }
    out := HashMessage(opad + inner);
  }

  // ---------- PBKDF2 ----------

  /** U_j of section 5.2 of RFC 8018, for the first and only block. */
  function Iterate(pw: seq<Byte>, salt: seq<Byte>, j: nat): Digest
    requires j > 0
  {
    if j == 1 then Mac(pw, salt + [0, 0, 0, 1]) else Mac(pw, Iterate(pw, salt, j - 1))
  }

  function XorDigests(a: Digest, b: Digest): Digest {
    seq(32, i requires 0 <= i < 32 => Xor(a[i], b[i]))
  }

  /** T_1 = U_1 xor ... xor U_c. */
  function Derived(pw: seq<Byte>, salt: seq<Byte>, c: nat): Digest
    requires c > 0
  {
    if c == 1 then Iterate(pw, salt, 1) else XorDigests(Derived(pw, salt, c - 1), Iterate(pw, salt, c))
  }

  lemma DerivedAt(pw: seq<Byte>, salt: seq<Byte>, c: nat)
    requires c > 0
    ensures Iterate(pw, salt, c) == if c == 1 then Mac(pw, salt + [0, 0, 0, 1]) else Mac(pw, Iterate(pw, salt, c - 1))
    ensures Derived(pw, salt, c) == if c == 1 then Iterate(pw, salt, 1)
            else XorDigests(Derived(pw, salt, c - 1), Iterate(pw, salt, c))
  {
    hide Mac, XorDigests;
  }

  /** The sum of byte k over the given digests. */
  function SumAt(us: seq<Digest>, k: nat): Byte
    requires k < 32
  {
    if us == [] then 0 else SumAt(us[..|us| - 1], k) ^ us[|us| - 1][k]
  }

  /** The key is the sum of the chain that starts from the salt followed by the block number 1. */
  lemma {:induction false} DerivedMeaning(pw: seq<Byte>, salt: seq<Byte>, us: seq<Digest>, k: nat)
    requires |us| > 0 && k < 32
    requires us[0] == Mac(pw, salt + [0, 0, 0, 1])
    requires forall j :: 1 <= j < |us| ==> us[j] == Mac(pw, us[j - 1])
    ensures us[|us| - 1] == Iterate(pw, salt, |us|)
    ensures Derived(pw, salt, |us|)[k] == SumAt(us, k)
  {
    hide Mac, XorDigests, Iterate, Derived;
    var n := |us| - 1;
    DerivedAt(pw, salt, n + 1);
    if n > 0 {
      DerivedMeaning(pw, salt, us[..n], k);
      SumBytes(Derived(pw, salt, n), us[n], k);
    } else {
      assert us[..0] == [] && SumAt([], k) == 0;
      Nothing(us[0][k]);
    }
  }

  lemma SumBytes(a: Digest, b: Digest, k: nat)
    requires k < 32
    ensures XorDigests(a, b)[k] == a[k] ^ b[k]
  {
  }

  lemma Nothing(b: Byte)
    ensures 0 ^ b == b
  {
  }

  function Least(a: nat, b: nat): nat { if a <= b then a else b }

  /** pbkdf2: at most 32 bytes of output from at most 60 bytes of salt; zero iterations act as one. */
  method Pbkdf2(password: seq<Byte>, salt: seq<Byte>, iters: nat, out: array<Byte>)
    modifies out
    ensures var n := Least(out.Length, 32);
            out[..n] == Derived(password, salt[..Least(|salt|, 60)], if iters == 0 then 1 else iters)[..n] &&
            out[n..] == old(out[n..])
  {
    hide Derived;
    var dklen := Least(out.Length, 32);
    var acc := FirstBlock(password, salt[..Least(|salt|, 60)], iters);
    for k := 0 to dklen
      invariant forall j :: 0 <= j < k ==> out[j] == acc[j]
      invariant forall j :: k <= j < out.Length ==> out[j] == old(out[j])
    {
      out[k] := acc[k];
    }
  }

  /** The iteration over a salt already cut to 60 bytes. */
  method FirstBlock(password: seq<Byte>, salt: seq<Byte>, iters: nat) returns (acc: Digest)
    requires |salt| <= 60
    ensures acc == Derived(password, salt, if iters == 0 then 1 else iters)
  {
    hide Mac, KernelMac, XorDigests, Iterate, Derived;
    var msg: seq<Byte> := salt + [0, 0, 0, 1];
    DerivedAt(password, salt, 1);
    var u := HmacSha256(password, msg);
    acc := u;
    var i := 1;
    while i < iters
      invariant 1 <= i && (iters > 0 ==> i <= iters) && (iters == 0 ==> i == 1)
      invariant u == Iterate(password, salt, i)
      invariant acc == Derived(password, salt, i)
    {
      var v := HmacSha256(password, u);
      u := v;
      DerivedAt(password, salt, i + 1);
      acc := XorInto(acc, u);
      i := i + 1;
    }
  }

  method XorInto(a: Digest, b: Digest) returns (r: Digest)
    ensures r == XorDigests(a, b)
  {
    hide Xor;
    r := a;
    for k := 0 to 32
      invariant forall j :: 0 <= j < 32 ==> r[j] == if j < k then Xor(a[j], b[j]) else a[j]
    {
      r := r[k := Xor(r[k], b[k])];
    }
  }
}
