/** The constants of SHA-256, sections 4.2.2 and 5.3.3 of FIPS 180-4: the first 32 bits of the
    fractional parts of the cube roots of the first 64 primes, and of the square roots of the
    first eight. */
module ShaConstants {
  import opened Sha256

  // ---------- primes ----------

  predicate Divides(d: nat, n: nat) { d > 0 && n % d == 0 }

  predicate IsPrime(n: nat) { n >= 2 && forall d :: 2 <= d < n ==> !Divides(d, n) }

  predicate Multiple(n: nat, p: nat)
    requires p > 0
  {
    n > p && n % p == 0
  }

  /** n is a proper multiple of one of the first seven primes. */
  predicate Sieved(n: nat) {
    Multiple(n, 2) || Multiple(n, 3) || Multiple(n, 5) || Multiple(n, 7) || Multiple(n, 11) || Multiple(n, 13) ||
    Multiple(n, 17)
  }

  /** Below 18 times 18 the sieve finds every number that is not prime. */
  lemma SieveFinds(n: nat)
    requires 2 <= n < 324
    ensures IsPrime(n) <==> !Sieved(n)
  {
    if Sieved(n) {
      assert Divides(2, n) || Divides(3, n) || Divides(5, n) || Divides(7, n) || Divides(11, n) || Divides(13, n) ||
             Divides(17, n);
    }
    if !IsPrime(n) {
      var d :| 2 <= d < n && Divides(d, n);
      var e := n / d;
      Cofactor(n, d, e);
      if d < 18 {
        SmallFactor(n, d, e);
      } else {
        SmallFactor(n, e, d);
      }
    }
  }

  lemma Cofactor(n: nat, d: nat, e: nat)
    requires 2 <= d < n < 324 && n % d == 0 && e == n / d
    ensures n == d * e && n == e * d && 2 <= e && (d < 18 || e < 18)
  {
    assert n == d * e;
  }

  /** A product with a small factor is a proper multiple of one of the first seven primes. */
  lemma SmallFactor(n: nat, d: nat, e: nat)
    requires 2 <= d < 18 && 2 <= e && n == d * e
    ensures Sieved(n)
  {
    hide Multiple;
    if d == 2 {
      Twice(n, e);
    } else if d == 3 {
      Thrice(n, e);
    } else if d == 4 {
      Twice(n, 2 * e);
    } else if d == 5 {
      Times5(n, e);
    } else if d == 6 {
      Twice(n, 3 * e);
    } else if d == 7 {
      Times7(n, e);
    } else if d == 8 {
      Twice(n, 4 * e);
    } else if d == 9 {
      Thrice(n, 3 * e);
    } else if d == 10 {
      Twice(n, 5 * e);
    } else if d == 11 {
      Times11(n, e);
    } else if d == 12 {
      Twice(n, 6 * e);
    } else if d == 13 {
      Times13(n, e);
    } else if d == 14 {
      Twice(n, 7 * e);
    } else if d == 15 {
      Thrice(n, 5 * e);
    } else if d == 16 {
      Twice(n, 8 * e);
    } else {
      Times17(n, e);
    }
  }

  lemma Twice(n: nat, m: nat)
    requires n == 2 * m && m >= 2
    ensures Multiple(n, 2)
  {
  }

  lemma Thrice(n: nat, m: nat)
    requires n == 3 * m && m >= 2
    ensures Multiple(n, 3)
  {
  }

  lemma Times5(n: nat, m: nat)
    requires n == 5 * m && m >= 2
    ensures Multiple(n, 5)
  {
  }

  lemma Times7(n: nat, m: nat)
    requires n == 7 * m && m >= 2
    ensures Multiple(n, 7)
  {
  }

  lemma Times11(n: nat, m: nat)
    requires n == 11 * m && m >= 2
    ensures Multiple(n, 11)
  {
  }

  lemma Times13(n: nat, m: nat)
    requires n == 13 * m && m >= 2
    ensures Multiple(n, 13)
  {
  }

  lemma Times17(n: nat, m: nat)
    requires n == 17 * m && m >= 2
    ensures Multiple(n, 17)
  {
  }

  /** The sieve finds every number from n up to b. */
  predicate AllSieved(n: nat, b: nat)
    decreases b - n
  {
    n >= b || (Sieved(n) && AllSieved(n + 1, b))
  }

  lemma {:induction false} NoneBetween(a: nat, b: nat)
    requires 2 <= a && b < 324 && AllSieved(a, b)
    ensures forall n :: a <= n < b ==> !IsPrime(n)
    decreases b - a
  {
    hide IsPrime, Sieved;
    if a < b {
      SieveFinds(a);
      NoneBetween(a + 1, b);
    }
  }

  const P0: seq<nat> := [2, 3, 5, 7, 11, 13, 17, 19]
  const P1: seq<nat> := [23, 29, 31, 37, 41, 43, 47, 53]
  const P2: seq<nat> := [59, 61, 67, 71, 73, 79, 83, 89]
  const P3: seq<nat> := [97, 101, 103, 107, 109, 113, 127, 131]
  const P4: seq<nat> := [137, 139, 149, 151, 157, 163, 167, 173]
  const P5: seq<nat> := [179, 181, 191, 193, 197, 199, 211, 223]
  const P6: seq<nat> := [227, 229, 233, 239, 241, 251, 257, 263]
  const P7: seq<nat> := [269, 271, 277, 281, 283, 293, 307, 311]
  const PRIMES: seq<nat> := ((P0 + P1) + (P2 + P3)) + ((P4 + P5) + (P6 + P7))

  /** a is prime and b is the next prime. */
  ghost predicate Next(a: nat, b: nat) { IsPrime(a) && IsPrime(b) && a < b && forall n :: a < n < b ==> !IsPrime(n) }

  lemma NextIs(a: nat, c: nat, b: nat)
    requires 2 <= a < b < 324 && c == a + 1 && !Sieved(a) && !Sieved(b) && AllSieved(c, b)
    ensures Next(a, b)
  {
    hide IsPrime, Sieved, AllSieved;
    SieveFinds(a);
    SieveFinds(b);
    NoneBetween(c, b);
  }

  lemma PrimeRow(i: nat)
    requires i < 64
    ensures |PRIMES| == 64
    ensures PRIMES[i] ==
            if i < 8 then P0[i]
            else if i < 16 then P1[i - 8]
            else if i < 24 then P2[i - 16]
            else if i < 32 then P3[i - 24]
            else if i < 40 then P4[i - 32]
            else if i < 48 then P5[i - 40]
            else if i < 56 then P6[i - 48]
            else P7[i - 56]
  {
  }

  lemma ConstantRow(i: nat)
    requires i < 64
    ensures |K| == 64
    ensures K[i] ==
            if i < 8 then K0[i]
            else if i < 16 then K1[i - 8]
            else if i < 24 then K2[i - 16]
            else if i < 32 then K3[i - 24]
            else if i < 40 then K4[i - 32]
            else if i < 48 then K5[i - 40]
            else if i < 56 then K6[i - 48]
            else K7[i - 56]
  {
  }

  lemma Low0(i: nat)
    requires i < 4
    ensures Next(P0[i], P0[i + 1])
  {
    hide IsPrime, Next;
    NextIs(2, 3, 3);
    NextIs(3, 4, 5);
    NextIs(5, 6, 7);
    NextIs(7, 8, 11);
  }

  lemma High0(i: nat)
    requires 4 <= i < 7
    ensures Next(P0[i], P0[i + 1])
  {
    hide IsPrime, Next;
    NextIs(11, 12, 13);
    NextIs(13, 14, 17);
    NextIs(17, 18, 19);
  }

  lemma Consecutive0(i: nat)
    requires i < 7
    ensures Next(P0[i], P0[i + 1])
  {
    hide Next;
    if i < 4 {
      Low0(i);
    } else {
      High0(i);
    }
  }

  lemma Low1(i: nat)
    requires i < 4
    ensures Next(P1[i], P1[i + 1])
  {
    hide IsPrime, Next;
    NextIs(23, 24, 29);
    NextIs(29, 30, 31);
    NextIs(31, 32, 37);
    NextIs(37, 38, 41);
  }

  lemma High1(i: nat)
    requires 4 <= i < 7
    ensures Next(P1[i], P1[i + 1])
  {
    hide IsPrime, Next;
    NextIs(41, 42, 43);
    NextIs(43, 44, 47);
    NextIs(47, 48, 53);
  }

  lemma Consecutive1(i: nat)
    requires i < 7
    ensures Next(P1[i], P1[i + 1])
  {
    hide Next;
    if i < 4 {
      Low1(i);
    } else {
      High1(i);
    }
  }

  lemma Low2(i: nat)
    requires i < 4
    ensures Next(P2[i], P2[i + 1])
  {
    hide IsPrime, Next;
    NextIs(59, 60, 61);
    NextIs(61, 62, 67);
    NextIs(67, 68, 71);
    NextIs(71, 72, 73);
  }

  lemma High2(i: nat)
    requires 4 <= i < 7
    ensures Next(P2[i], P2[i + 1])
  {
    hide IsPrime, Next;
    NextIs(73, 74, 79);
    NextIs(79, 80, 83);
    NextIs(83, 84, 89);
  }

  lemma Consecutive2(i: nat)
    requires i < 7
    ensures Next(P2[i], P2[i + 1])
  {
    hide Next;
    if i < 4 {
      Low2(i);
    } else {
      High2(i);
    }
  }

  lemma Low3(i: nat)
    requires i < 4
    ensures Next(P3[i], P3[i + 1])
  {
    hide IsPrime, Next;
    NextIs(97, 98, 101);
    NextIs(101, 102, 103);
    NextIs(103, 104, 107);
    NextIs(107, 108, 109);
  }

  lemma High3(i: nat)
    requires 4 <= i < 7
    ensures Next(P3[i], P3[i + 1])
  {
    hide IsPrime, Next;
    NextIs(109, 110, 113);
    NextIs(113, 114, 127);
    NextIs(127, 128, 131);
  }

  lemma Consecutive3(i: nat)
    requires i < 7
    ensures Next(P3[i], P3[i + 1])
  {
    hide Next;
    if i < 4 {
      Low3(i);
    } else {
      High3(i);
    }
  }

  lemma Low4(i: nat)
    requires i < 4
    ensures Next(P4[i], P4[i + 1])
  {
    hide IsPrime, Next;
    NextIs(137, 138, 139);
    NextIs(139, 140, 149);
    NextIs(149, 150, 151);
    NextIs(151, 152, 157);
  }

  lemma High4(i: nat)
    requires 4 <= i < 7
    ensures Next(P4[i], P4[i + 1])
  {
    hide IsPrime, Next;
    NextIs(157, 158, 163);
    NextIs(163, 164, 167);
    NextIs(167, 168, 173);
  }

  lemma Consecutive4(i: nat)
    requires i < 7
    ensures Next(P4[i], P4[i + 1])
  {
    hide Next;
    if i < 4 {
      Low4(i);
    } else {
      High4(i);
    }
  }

  lemma Low5(i: nat)
    requires i < 4
    ensures Next(P5[i], P5[i + 1])
  {
    hide IsPrime, Next;
    NextIs(179, 180, 181);
    NextIs(181, 182, 191);
    NextIs(191, 192, 193);
    NextIs(193, 194, 197);
  }

  lemma High5(i: nat)
    requires 4 <= i < 7
    ensures Next(P5[i], P5[i + 1])
  {
    hide IsPrime, Next;
    NextIs(197, 198, 199);
    NextIs(199, 200, 211);
    NextIs(211, 212, 223);
  }

  lemma Consecutive5(i: nat)
    requires i < 7
    ensures Next(P5[i], P5[i + 1])
  {
    hide Next;
    if i < 4 {
      Low5(i);
    } else {
      High5(i);
    }
  }

  lemma Low6(i: nat)
    requires i < 4
    ensures Next(P6[i], P6[i + 1])
  {
    hide IsPrime, Next;
    NextIs(227, 228, 229);
    NextIs(229, 230, 233);
    NextIs(233, 234, 239);
    NextIs(239, 240, 241);
  }

  lemma High6(i: nat)
    requires 4 <= i < 7
    ensures Next(P6[i], P6[i + 1])
  {
    hide IsPrime, Next;
    NextIs(241, 242, 251);
    NextIs(251, 252, 257);
    NextIs(257, 258, 263);
  }

  lemma Consecutive6(i: nat)
    requires i < 7
    ensures Next(P6[i], P6[i + 1])
  {
    hide Next;
    if i < 4 {
      Low6(i);
    } else {
      High6(i);
    }
  }

  lemma Low7(i: nat)
    requires i < 4
    ensures Next(P7[i], P7[i + 1])
  {
    hide IsPrime, Next;
    NextIs(269, 270, 271);
    NextIs(271, 272, 277);
    NextIs(277, 278, 281);
    NextIs(281, 282, 283);
  }

  lemma High7(i: nat)
    requires 4 <= i < 7
    ensures Next(P7[i], P7[i + 1])
  {
    hide IsPrime, Next;
    NextIs(283, 284, 293);
    NextIs(293, 294, 307);
    NextIs(307, 308, 311);
  }

  lemma Consecutive7(i: nat)
    requires i < 7
    ensures Next(P7[i], P7[i + 1])
  {
    hide Next;
    if i < 4 {
      Low7(i);
    } else {
      High7(i);
    }
  }

  lemma RowEndsLow()
    ensures |PRIMES| == 64
    ensures Next(PRIMES[7], PRIMES[8])
    ensures Next(PRIMES[15], PRIMES[16])
    ensures Next(PRIMES[23], PRIMES[24])
    ensures Next(PRIMES[31], PRIMES[32])
  {
    hide IsPrime, Next;
    NextIs(19, 20, 23);
    NextIs(53, 54, 59);
    NextIs(89, 90, 97);
    NextIs(131, 132, 137);
  }

  lemma RowEndsHigh()
    ensures |PRIMES| == 64
    ensures Next(PRIMES[39], PRIMES[40])
    ensures Next(PRIMES[47], PRIMES[48])
    ensures Next(PRIMES[55], PRIMES[56])
  {
    hide IsPrime, Next;
    NextIs(173, 174, 179);
    NextIs(223, 224, 227);
    NextIs(263, 264, 269);
  }

  lemma RowInside(i: nat)
    requires i < 64 && i % 8 != 7
    ensures |PRIMES| == 64 && Next(PRIMES[i], PRIMES[i + 1])
  {
    hide Next, PRIMES, P0, P1, P2, P3, P4, P5, P6, P7;
    PrimeRow(i);
    PrimeRow(i + 1);
    if i < 8 {
      Consecutive0(i);
    } else if i < 16 {
      Consecutive1(i - 8);
    } else if i < 24 {
      Consecutive2(i - 16);
    } else if i < 32 {
      Consecutive3(i - 24);
    } else if i < 40 {
      Consecutive4(i - 32);
    } else if i < 48 {
      Consecutive5(i - 40);
    } else if i < 56 {
      Consecutive6(i - 48);
    } else {
      Consecutive7(i - 56);
    }
  }

  lemma FirstPrime()
    ensures |PRIMES| == 64 && PRIMES[0] == 2
  {
  }

  /** The table starts with 2 and goes from prime to next prime. */
  lemma PrimesInOrder(i: nat)
    requires i < 63
    ensures |PRIMES| == 64 && PRIMES[0] == 2 && Next(PRIMES[i], PRIMES[i + 1])
  {
    hide Next, PRIMES;
    FirstPrime();
    if i % 8 == 7 {
      RowEndsLow();
      RowEndsHigh();
      assert i == 7 || i == 15 || i == 23 || i == 31 || i == 39 || i == 47 || i == 55;
    } else {
      RowInside(i);
    }
  }

  // ---------- roots ----------

  /** q and the fraction w, in 32 bits, are the cube root of p cut to 32 bits behind the point. */
  predicate CubeRoot(p: nat, q: nat, w: nat) {
    var r := q * 0x1_0000_0000 + w;
    r * r * r <= p * 0x1_0000_0000_0000_0000_0000_0000 < (r + 1) * (r + 1) * (r + 1)
  }

  /** The same for the square root. */
  predicate SquareRoot(p: nat, q: nat, w: nat) {
    var r := q * 0x1_0000_0000 + w;
    r * r <= p * 0x1_0000_0000_0000_0000 < (r + 1) * (r + 1)
  }

  /** w is the fraction of the root, in 32 bits. */
  ghost predicate HasCubeRoot(p: nat, w: nat) { exists q: nat :: CubeRoot(p, q, w) }

  ghost predicate HasSquareRoot(p: nat, w: nat) { exists q: nat :: SquareRoot(p, q, w) }

  lemma CubeRoots0(i: nat)
    requires i < 8
    ensures HasCubeRoot(P0[i], K0[i] as nat)
  {
    assert CubeRoot(2, 1, 0x428a2f98);
    assert CubeRoot(3, 1, 0x71374491);
    assert CubeRoot(5, 1, 0xb5c0fbcf);
    assert CubeRoot(7, 1, 0xe9b5dba5);
    assert CubeRoot(11, 2, 0x3956c25b);
    assert CubeRoot(13, 2, 0x59f111f1);
    assert CubeRoot(17, 2, 0x923f82a4);
    assert CubeRoot(19, 2, 0xab1c5ed5);
  }

  lemma CubeRoots1(i: nat)
    requires i < 8
    ensures HasCubeRoot(P1[i], K1[i] as nat)
  {
    assert CubeRoot(23, 2, 0xd807aa98);
    assert CubeRoot(29, 3, 0x12835b01);
    assert CubeRoot(31, 3, 0x243185be);
    assert CubeRoot(37, 3, 0x550c7dc3);
    assert CubeRoot(41, 3, 0x72be5d74);
    assert CubeRoot(43, 3, 0x80deb1fe);
    assert CubeRoot(47, 3, 0x9bdc06a7);
    assert CubeRoot(53, 3, 0xc19bf174);
  }

  lemma CubeRoots2(i: nat)
    requires i < 8
    ensures HasCubeRoot(P2[i], K2[i] as nat)
  {
    assert CubeRoot(59, 3, 0xe49b69c1);
    assert CubeRoot(61, 3, 0xefbe4786);
    assert CubeRoot(67, 4, 0x0fc19dc6);
    assert CubeRoot(71, 4, 0x240ca1cc);
    assert CubeRoot(73, 4, 0x2de92c6f);
    assert CubeRoot(79, 4, 0x4a7484aa);
    assert CubeRoot(83, 4, 0x5cb0a9dc);
    assert CubeRoot(89, 4, 0x76f988da);
  }

  lemma CubeRoots3(i: nat)
    requires i < 8
    ensures HasCubeRoot(P3[i], K3[i] as nat)
  {
    assert CubeRoot(97, 4, 0x983e5152);
    assert CubeRoot(101, 4, 0xa831c66d);
    assert CubeRoot(103, 4, 0xb00327c8);
    assert CubeRoot(107, 4, 0xbf597fc7);
    assert CubeRoot(109, 4, 0xc6e00bf3);
    assert CubeRoot(113, 4, 0xd5a79147);
    assert CubeRoot(127, 5, 0x06ca6351);
    assert CubeRoot(131, 5, 0x14292967);
  }

  lemma CubeRoots4(i: nat)
    requires i < 8
    ensures HasCubeRoot(P4[i], K4[i] as nat)
  {
    assert CubeRoot(137, 5, 0x27b70a85);
    assert CubeRoot(139, 5, 0x2e1b2138);
    assert CubeRoot(149, 5, 0x4d2c6dfc);
    assert CubeRoot(151, 5, 0x53380d13);
    assert CubeRoot(157, 5, 0x650a7354);
    assert CubeRoot(163, 5, 0x766a0abb);
    assert CubeRoot(167, 5, 0x81c2c92e);
    assert CubeRoot(173, 5, 0x92722c85);
  }

  lemma CubeRoots5(i: nat)
    requires i < 8
    ensures HasCubeRoot(P5[i], K5[i] as nat)
  {
    assert CubeRoot(179, 5, 0xa2bfe8a1);
    assert CubeRoot(181, 5, 0xa81a664b);
    assert CubeRoot(191, 5, 0xc24b8b70);
    assert CubeRoot(193, 5, 0xc76c51a3);
    assert CubeRoot(197, 5, 0xd192e819);
    assert CubeRoot(199, 5, 0xd6990624);
    assert CubeRoot(211, 5, 0xf40e3585);
    assert CubeRoot(223, 6, 0x106aa070);
  }

  lemma CubeRoots6(i: nat)
    requires i < 8
    ensures HasCubeRoot(P6[i], K6[i] as nat)
  {
    assert CubeRoot(227, 6, 0x19a4c116);
    assert CubeRoot(229, 6, 0x1e376c08);
    assert CubeRoot(233, 6, 0x2748774c);
    assert CubeRoot(239, 6, 0x34b0bcb5);
    assert CubeRoot(241, 6, 0x391c0cb3);
    assert CubeRoot(251, 6, 0x4ed8aa4a);
    assert CubeRoot(257, 6, 0x5b9cca4f);
    assert CubeRoot(263, 6, 0x682e6ff3);
  }

  lemma CubeRoots7(i: nat)
    requires i < 8
    ensures HasCubeRoot(P7[i], K7[i] as nat)
  {
    assert CubeRoot(269, 6, 0x748f82ee);
    assert CubeRoot(271, 6, 0x78a5636f);
    assert CubeRoot(277, 6, 0x84c87814);
    assert CubeRoot(281, 6, 0x8cc70208);
    assert CubeRoot(283, 6, 0x90befffa);
    assert CubeRoot(293, 6, 0xa4506ceb);
    assert CubeRoot(307, 6, 0xbef9a3f7);
    assert CubeRoot(311, 6, 0xc67178f2);
  }

  /** Section 4.2.2: the constants are the first 32 bits behind the point of the cube roots of the
      first 64 primes. */
  lemma RoundConstants(i: nat)
    requires i < 64
    ensures |K| == 64 && |PRIMES| == 64 && HasCubeRoot(PRIMES[i], K[i] as nat)
  {
    hide HasCubeRoot, PRIMES, P0, P1, P2, P3, P4, P5, P6, P7, K, K0, K1, K2, K3, K4, K5, K6, K7;
    PrimeRow(i);
    ConstantRow(i);
    if i < 8 {
      CubeRoots0(i);
    } else if i < 16 {
      CubeRoots1(i - 8);
    } else if i < 24 {
      CubeRoots2(i - 16);
    } else if i < 32 {
      CubeRoots3(i - 24);
    } else if i < 40 {
      CubeRoots4(i - 32);
    } else if i < 48 {
      CubeRoots5(i - 40);
    } else if i < 56 {
      CubeRoots6(i - 48);
    } else {
      CubeRoots7(i - 56);
    }
  }

  /** Section 5.3.3: the initial state is that of the square roots of the first eight primes. */
  lemma InitialState(i: nat)
    requires i < 8
    ensures HasSquareRoot(PRIMES[i], INITIAL[i] as nat)
  {
    assert SquareRoot(2, 1, 0x6a09e667);
    assert SquareRoot(3, 1, 0xbb67ae85);
    assert SquareRoot(5, 2, 0x3c6ef372);
    assert SquareRoot(7, 2, 0xa54ff53a);
    assert SquareRoot(11, 3, 0x510e527f);
    assert SquareRoot(13, 3, 0x9b05688c);
    assert SquareRoot(17, 4, 0x1f83d9ab);
    assert SquareRoot(19, 4, 0x5be0cd19);
  }
}
