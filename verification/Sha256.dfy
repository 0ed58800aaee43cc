/** SHA-256 as in FIPS 180-4: the compression loop, the padding of section 5.1.1, and the
    kernel's one-pass routine that pads the tail in a 128-byte buffer. */
module Sha256 {
  import opened Bytes

  type Word = bv32
  type Chunk = b: seq<Byte> | |b| == 64 witness seq(64, _ => 0 as bv8)
  type State = h: seq<Word> | |h| == 8 witness seq(8, _ => 0 as bv32)

  // ---------- bytes and words ----------

  /** Four bytes, the first the most significant. */
  function WordOf(a: Byte, b: Byte, c: Byte, d: Byte): Word {
    (a as bv32 << 24) | (b as bv32 << 16) | (c as bv32 << 8) | d as bv32
  }

  function Byte0(w: Word): Byte { ((w >> 24) & 0xFF) as bv8 }
  function Byte1(w: Word): Byte { ((w >> 16) & 0xFF) as bv8 }
  function Byte2(w: Word): Byte { ((w >> 8) & 0xFF) as bv8 }
  function Byte3(w: Word): Byte { (w & 0xFF) as bv8 }

  /** Writing a word out and reading it back are inverse. */
  lemma WordBytes(w: Word)
    ensures WordOf(Byte0(w), Byte1(w), Byte2(w), Byte3(w)) == w
  {
  }

  // ---------- the functions of section 4.1.2 ----------

  function BigSigma0(x: Word): Word { x.RotateRight(2) ^ x.RotateRight(13) ^ x.RotateRight(22) }
  function BigSigma1(x: Word): Word { x.RotateRight(6) ^ x.RotateRight(11) ^ x.RotateRight(25) }
  function SmallSigma0(x: Word): Word { x.RotateRight(7) ^ x.RotateRight(18) ^ (x >> 3) }
  function SmallSigma1(x: Word): Word { x.RotateRight(17) ^ x.RotateRight(19) ^ (x >> 10) }
  function Ch(x: Word, y: Word, z: Word): Word { (x & y) ^ ((!x) & z) }
  function Maj(x: Word, y: Word, z: Word): Word { (x & y) ^ (x & z) ^ (y & z) }
  function Add(x: Word, y: Word): Word { x + y }

  /** SHA_K, row by row. */
  const K0: seq<Word> :=
    [0x428a2f98, 0x71374491, 0xb5c0fbcf, 0xe9b5dba5, 0x3956c25b, 0x59f111f1, 0x923f82a4, 0xab1c5ed5]
  const K1: seq<Word> :=
    [0xd807aa98, 0x12835b01, 0x243185be, 0x550c7dc3, 0x72be5d74, 0x80deb1fe, 0x9bdc06a7, 0xc19bf174]
  const K2: seq<Word> :=
    [0xe49b69c1, 0xefbe4786, 0x0fc19dc6, 0x240ca1cc, 0x2de92c6f, 0x4a7484aa, 0x5cb0a9dc, 0x76f988da]
  const K3: seq<Word> :=
    [0x983e5152, 0xa831c66d, 0xb00327c8, 0xbf597fc7, 0xc6e00bf3, 0xd5a79147, 0x06ca6351, 0x14292967]
  const K4: seq<Word> :=
    [0x27b70a85, 0x2e1b2138, 0x4d2c6dfc, 0x53380d13, 0x650a7354, 0x766a0abb, 0x81c2c92e, 0x92722c85]
  const K5: seq<Word> :=
    [0xa2bfe8a1, 0xa81a664b, 0xc24b8b70, 0xc76c51a3, 0xd192e819, 0xd6990624, 0xf40e3585, 0x106aa070]
  const K6: seq<Word> :=
    [0x19a4c116, 0x1e376c08, 0x2748774c, 0x34b0bcb5, 0x391c0cb3, 0x4ed8aa4a, 0x5b9cca4f, 0x682e6ff3]
  const K7: seq<Word> :=
    [0x748f82ee, 0x78a5636f, 0x84c87814, 0x8cc70208, 0x90befffa, 0xa4506ceb, 0xbef9a3f7, 0xc67178f2]
  const K: seq<Word> := ((K0 + K1) + (K2 + K3)) + ((K4 + K5) + (K6 + K7))

  const INITIAL: State := [
    0x6a09e667, 0xbb67ae85, 0x3c6ef372, 0xa54ff53a, 0x510e527f, 0x9b05688c, 0x1f83d9ab, 0x5be0cd19]

  // ---------- the compression function of section 6.2.2 ----------

  /** Word t of the message schedule. */
  function Scheduled(b: Chunk, t: nat): Word
    requires t < 64
  {
    if t < 16 then WordOf(b[4 * t], b[4 * t + 1], b[4 * t + 2], b[4 * t + 3])
    else Add(Add(Add(Scheduled(b, t - 16), SmallSigma0(Scheduled(b, t - 15))), Scheduled(b, t - 7)),
             SmallSigma1(Scheduled(b, t - 2)))
  }

  datatype Working = Working(a: Word, b: Word, c: Word, d: Word, e: Word, f: Word, g: Word, h: Word)

  function Step(v: Working, k: Word, w: Word): Working {
    var t1 := Add(Add(Add(Add(v.h, BigSigma1(v.e)), Ch(v.e, v.f, v.g)), k), w);
    var t2 := Add(BigSigma0(v.a), Maj(v.a, v.b, v.c));
    Working(Add(t1, t2), v.a, v.b, v.c, Add(v.d, t1), v.e, v.f, v.g)
  }

  /** The working variables after t of the 64 steps. */
  function Steps(h: State, b: Chunk, t: nat): Working
    requires t <= 64
  {
    if t == 0 then Working(h[0], h[1], h[2], h[3], h[4], h[5], h[6], h[7])
    else Step(Steps(h, b, t - 1), K[t - 1], Scheduled(b, t - 1))
  }

  function Compress(h: State, b: Chunk): State {
    var v := Steps(h, b, 64);
    [Add(h[0], v.a), Add(h[1], v.b), Add(h[2], v.c), Add(h[3], v.d),
     Add(h[4], v.e), Add(h[5], v.f), Add(h[6], v.g), Add(h[7], v.h)]
  }

  lemma ScheduledFrom(b: Chunk, t: nat)
    requires 16 <= t < 64
    ensures Scheduled(b, t)
            == Add(Add(Add(Scheduled(b, t - 16), SmallSigma0(Scheduled(b, t - 15))), Scheduled(b, t - 7)),
                   SmallSigma1(Scheduled(b, t - 2)))
  {
  }

  method Schedule(block: Chunk) returns (w: seq<Word>)
    ensures |w| == 64 && forall t :: 0 <= t < 64 ==> w[t] == Scheduled(block, t)
  {
    hide WordOf, SmallSigma0, SmallSigma1, Add, Scheduled;
    w := LoadWords(block);
    for i := 16 to 64
      invariant |w| == 64
      invariant forall t :: 0 <= t < i ==> w[t] == Scheduled(block, t)
    {
      var s0 := SmallSigma0(w[i - 15]);
      var s1 := SmallSigma1(w[i - 2]);
      w := w[i := Add(Add(Add(w[i - 16], s0), w[i - 7]), s1)];
      ScheduledFrom(block, i);
    }
  }

  method LoadWords(block: Chunk) returns (w: seq<Word>)
    ensures |w| == 64 && forall t :: 0 <= t < 16 ==> w[t] == Scheduled(block, t)
  {
    hide WordOf, SmallSigma0, SmallSigma1, Add;
    w := seq(64, _ => 0);
    for i := 0 to 16
      invariant |w| == 64
      invariant forall t :: 0 <= t < i ==> w[t] == Scheduled(block, t)
    {
      w := w[i := WordOf(block[i * 4], block[i * 4 + 1], block[i * 4 + 2], block[i * 4 + 3])];
    }
  }

  /** sha256_compress */
  method CompressBlock(h: State, block: Chunk) returns (r: State)
    ensures r == Compress(h, block)
  {
    hide Add, Step, Scheduled;
    var w := Schedule(block);
    var v := Working(h[0], h[1], h[2], h[3], h[4], h[5], h[6], h[7]);
    for i := 0 to 64
      invariant v == Steps(h, block, i)
    {
      v := StepInPlace(v, K[i], w[i]);
    }
    r := [Add(h[0], v.a), Add(h[1], v.b), Add(h[2], v.c), Add(h[3], v.d),
          Add(h[4], v.e), Add(h[5], v.f), Add(h[6], v.g), Add(h[7], v.h)];
  }

  /** One turn of the loop, with the eight variables overwritten in the order of the code. */
  method StepInPlace(v: Working, k: Word, w: Word) returns (r: Working)
    ensures r == Step(v, k, w)
  {
    hide BigSigma0, BigSigma1, Ch, Maj, Add;
    var (a, b, c, d, e, f, g, hh) := (v.a, v.b, v.c, v.d, v.e, v.f, v.g, v.h);
    var s1 := BigSigma1(e);
    var ch := Ch(e, f, g);
    var t1 := Add(Add(Add(Add(hh, s1), ch), k), w);
    var s0 := BigSigma0(a);
    var maj := Maj(a, b, c);
    var t2 := Add(s0, maj);
    hh := g; g := f; f := e; e := Add(d, t1);
    d := c; c := b; b := a; a := Add(t1, t2);
    r := Working(a, b, c, d, e, f, g, hh);
  }
}
