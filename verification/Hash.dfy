/** Hashing a whole message: padding, the fold of the compression function over the padded
    blocks, and the kernel's routines that reach the same digest without building it. */
module Hash {
  import opened Bytes
  import opened Sha256

  // ---------- the length field ----------

  /** n shifted right by 8j bits. */
  function Shifted(n: nat, j: nat): nat {
    if j == 0 then n else Shifted(n / 256, j - 1)
  }

  /** The k low bytes of n, most significant first. */
  function BigEndian(n: nat, k: nat): (s: seq<Byte>)
    ensures |s| == k
  {
    if k == 0 then [] else BigEndian(n / 256, k - 1) + [ToByte(n % 256)]
  }

  lemma {:induction false} BigEndianAt(n: nat, k: nat, i: nat)
    requires i < k
    ensures BigEndian(n, k)[i] == ToByte(Shifted(n, k - 1 - i) % 256)
  {
    hide ToByte;
    if i < k - 1 {
      BigEndianAt(n / 256, k - 1, i);
    }
  }

  // ---------- padding ----------

  /** The number of zero bytes after the 0x80 byte. */
  function Zeros(len: nat): (k: nat)
    ensures k < 64 && (len + 1 + k) % 64 == 56
  {
    (119 - len % 64) % 64
  }

  /** It is the smallest number that works, as section 5.1.1 of FIPS 180-4 asks. */
  lemma ZerosLeast(len: nat, j: nat)
    requires (len + 1 + j) % 64 == 56
    ensures Zeros(len) <= j
  {
  }

  /** The length in bits, modulo 2^64. */
  function BitLength(len: nat): nat {
    len * 8 % 0x1_0000_0000_0000_0000
  }

  lemma WholeBlocks(len: nat)
    ensures (len + Zeros(len) + 9) % 64 == 0
  {
    hide Zeros;
  }

  function Padding(len: nat): (p: seq<Byte>)
    ensures |p| == Zeros(len) + 9
  {
    [0x80] + seq(Zeros(len), _ => 0) + BigEndian(BitLength(len), 8)
  }

  function Padded(m: seq<Byte>): (p: seq<Byte>)
    ensures |p| % 64 == 0
  {
    WholeBlocks(|m|);
    m + Padding(|m|)
  }

  // ---------- the digest ----------

  /** The state after the first n blocks of p. */
  function Absorbed(h: State, p: seq<Byte>, n: nat): State
    requires 64 * n <= |p|
  {
    if n == 0 then h else Compress(Absorbed(h, p, n - 1), p[64 * (n - 1)..64 * n])
  }

  /** Only the blocks absorbed matter. */
  lemma {:induction false} AbsorbedPrefix(h: State, p: seq<Byte>, q: seq<Byte>, n: nat)
    requires 64 * n <= |p| && 64 * n <= |q| && p[..64 * n] == q[..64 * n]
    ensures Absorbed(h, p, n) == Absorbed(h, q, n)
  {
    hide Compress;
    if n > 0 {
      assert p[..64 * (n - 1)] == p[..64 * n][..64 * (n - 1)] == q[..64 * (n - 1)];
      AbsorbedPrefix(h, p, q, n - 1);
      assert p[64 * (n - 1)..64 * n] == p[..64 * n][64 * (n - 1)..] == q[64 * (n - 1)..64 * n];
    }
  }

  function WordBytesOf(w: Word): (s: seq<Byte>)
    ensures |s| == 4
  {
    [Byte0(w), Byte1(w), Byte2(w), Byte3(w)]
  }

  type Digest = d: seq<Byte> | |d| == 32 witness seq(32, _ => 0 as bv8)

  /** The first n words of the state as bytes. */
  function WordsOut(h: State, n: nat): (s: seq<Byte>)
    requires n <= 8
    ensures |s| == 4 * n
  {
    if n == 0 then [] else WordsOut(h, n - 1) + WordBytesOf(h[n - 1])
  }

  function Output(h: State): Digest { WordsOut(h, 8) }

  /** The digest of a message from a given initial state. */
  function DigestFrom(h: State, m: seq<Byte>): Digest {
    Output(Absorbed(h, Padded(m), |Padded(m)| / 64))
  }

  function Sha(m: seq<Byte>): Digest { DigestFrom(INITIAL, m) }

  // ---------- the kernel's routines ----------

  /** The eight length bytes written into the tail buffer. */
  method PutLength(last0: seq<Byte>, at: nat, bits: nat) returns (last: seq<Byte>)
    requires at + 8 <= |last0|
    ensures last == last0[..at] + BigEndian(bits, 8) + last0[at + 8..]
  {
    hide ToByte, BigEndian, Shifted;
    last := last0;
    for i := 0 to 8
      invariant |last| == |last0|
      invariant forall j :: 0 <= j < |last0| && !(at <= j < at + i) ==> last[j] == last0[j]
      invariant forall j :: 0 <= j < i ==> last[at + j] == BigEndian(bits, 8)[j]
    {
      BigEndianAt(bits, 8, i);
      last := last[at + i := ToByte(Shifted(bits, 7 - i) % 256)];
    }
  }

  /** sha256_stream: the digest from the state given, and sha256 when it is the initial one. */
  method Stream(msg: seq<Byte>, h0: State) returns (out: Digest)
    ensures out == DigestFrom(h0, msg)
  {
    hide Compress, Padding, Output, BigEndian, Zeros, BitLength;
    var bitLen := BitLength(|msg|);
    ghost var p := Padded(msg);
    var h := h0;
    var off := 0;
    ghost var n := 0;
    while off + 64 <= |msg|
      invariant off == 64 * n <= |msg|
      invariant h == Absorbed(h0, p, n)
    {
      assert msg[off..off + 64] == p[64 * n..64 * (n + 1)];
      h := CompressBlock(h, msg[off..off + 64]);
      off := off + 64;
      n := n + 1;
    }
    var rem := |msg| - off;
    var last: seq<Byte> := msg[off..] + seq(128 - rem, _ => 0);
    last := last[rem := 0x80];
    var total := rem + 1 + 8;
    var blocks := if total <= 64 then 1 else 2;
    last := PutLength(last, blocks * 64 - 8, bitLen);
    TailIs(msg, n, blocks, last);
    for bi := 0 to blocks
      invariant 64 * (n + bi) <= |p|
      invariant h == Absorbed(h0, p, n + bi)
    {
      h := CompressBlock(h, last[bi * 64..bi * 64 + 64]);
    }
    out := PutState(h);
  }

  lemma TailIs(msg: seq<Byte>, n: nat, blocks: nat, last: seq<Byte>)
    requires 64 * n <= |msg| < 64 * n + 64
    requires blocks == if |msg| - 64 * n + 9 <= 64 then 1 else 2
    requires |last| == 128
    requires var rem := |msg| - 64 * n;
             last == (msg[64 * n..] + [0x80] + seq(127 - rem, _ => 0))[..blocks * 64 - 8]
                     + BigEndian(BitLength(|msg|), 8) + (msg[64 * n..] + [0x80] + seq(127 - rem, _ => 0))[blocks * 64..]
    ensures |Padded(msg)| == 64 * (n + blocks)
    ensures forall bi :: 0 <= bi < blocks ==>
            last[bi * 64..bi * 64 + 64] == Padded(msg)[64 * (n + bi)..64 * (n + bi) + 64]
  {
    hide BigEndian, BitLength;
    TailLength(|msg|, n, blocks);
    var rem := |msg| - 64 * n;
    assert Padded(msg) == msg[..64 * n] + last[..64 * blocks];
  }

  lemma TailLength(len: nat, n: nat, blocks: nat)
    requires 64 * n <= len < 64 * n + 64
    requires blocks == if len - 64 * n + 9 <= 64 then 1 else 2
    ensures len + Zeros(len) + 9 == 64 * (n + blocks)
  {
  }

  method PutState(h: State) returns (out: Digest)
    ensures out == Output(h)
  {
    hide WordBytesOf;
    out := seq(32, _ => 0);
    for i := 0 to 8
      invariant out[..4 * i] == WordsOut(h, i)
    {
      out := PutWord(out, i, h[i]);
    }
    assert out == out[..4 * 8];
  }

  method PutWord(out0: Digest, i: nat, w: Word) returns (out: Digest)
    requires i < 8
    ensures out[..4 * (i + 1)] == out0[..4 * i] + WordBytesOf(w)
  {
    hide Byte0, Byte1, Byte2, Byte3;
    out := out0[i * 4 := Byte0(w)];
    out := out[i * 4 + 1 := Byte1(w)];
    out := out[i * 4 + 2 := Byte2(w)];
    out := out[i * 4 + 3 := Byte3(w)];
  }

  /** sha256 */
  method HashMessage(msg: seq<Byte>) returns (out: Digest)
    ensures out == Sha(msg)
  {
    out := Stream(msg, INITIAL);
  }
}
