/** The answer of FIPS 180-4 for the message "abc", which the kernel's self test asks for: the
    schedule of its one block and the working variables, step by step. */
module KnownDigest {
  import opened Bytes
  import opened Sha256
  import opened Hash

  const ABC: seq<Byte> := [0x61, 0x62, 0x63]

  // ---------- the message schedule ----------

  /** Word t of the schedule is w. */
  predicate Has(b: Chunk, t: nat, w: Sha256.Word) { t < 64 && Scheduled(b, t) == w }

  lemma NextWord(b: Chunk, t: nat, w16: Sha256.Word, w15: Sha256.Word, w7: Sha256.Word, w2: Sha256.Word)
    requires 16 <= t < 64 && Has(b, t - 16, w16) && Has(b, t - 15, w15) && Has(b, t - 7, w7) && Has(b, t - 2, w2)
    ensures Has(b, t, Add(Add(Add(w16, SmallSigma0(w15)), w7), SmallSigma1(w2)))
  {
    hide Add, SmallSigma0, SmallSigma1, WordOf;
    ScheduledFrom(b, t);
  }

  /** The padded message: its words are the text and the mark, zeros, and the length in bits. */
  predicate AbcWords(b: Chunk) {
    Has(b, 0, 0x61626380) && Has(b, 15, 0x18) && forall t :: 1 <= t < 15 ==> Has(b, t, 0)
  }

  lemma {:induction false} ZeroBytes(k: nat)
    ensures forall i :: 0 <= i < k ==> BigEndian(0, k)[i] == 0
  {
    if k > 0 {
      ZeroBytes(k - 1);
      assert BigEndian(0, k) == BigEndian(0, k - 1) + [ToByte(0)];
      assert ToByte(0) == 0;
    }
  }

  lemma LengthBytes()
    ensures BigEndian(24, 8)[7] == 0x18 && forall i :: 0 <= i < 7 ==> BigEndian(24, 8)[i] == 0
  {
    ZeroBytes(7);
    assert BigEndian(24, 8) == BigEndian(0, 7) + [ToByte(24)];
    assert ToByte(24) == 0x18;
  }

  lemma AbcBytes()
    ensures var p := Padded(ABC);
            |p| == 64 && p[..4] == [0x61, 0x62, 0x63, 0x80] && p[63] == 0x18 && forall i :: 4 <= i < 63 ==> p[i] == 0
  {
    hide BigEndian;
    assert BitLength(3) == 24 && Zeros(3) == 52;
    LengthBytes();
    var p := Padded(ABC);
    assert p == ABC + [0x80] + seq(52, _ => 0) + BigEndian(24, 8);
    assert forall i :: 0 <= i < 8 ==> p[56 + i] == BigEndian(24, 8)[i];
    assert forall i :: 4 <= i < 56 ==> p[i] == 0;
    assert forall i :: 56 <= i < 63 ==> p[i] == p[56 + (i - 56)];
  }

  lemma AbcPadded()
    ensures |Padded(ABC)| == 64 && AbcWords(Padded(ABC))
  {
    hide Padded, Padding;
    AbcBytes();
    var p := Padded(ABC);
    assert p[0] == p[..4][0] && p[1] == p[..4][1] && p[2] == p[..4][2] && p[3] == p[..4][3];
    TextWord();
    forall t | 1 <= t < 15 ensures Has(p, t, 0) {
      assert p[4 * t] == 0 && p[4 * t + 1] == 0 && p[4 * t + 2] == 0 && p[4 * t + 3] == 0;
    }
  }

  lemma TextWord()
    ensures WordOf(0x61, 0x62, 0x63, 0x80) == 0x61626380 && WordOf(0, 0, 0, 0) == 0 && WordOf(0, 0, 0, 0x18) == 0x18
  {
  }

  lemma Schedule0(b: Chunk)
    requires AbcWords(b)
    ensures Has(b, 16, 0x61626380) && Has(b, 17, 0x000f0000) && Has(b, 18, 0x7da86405) && Has(b, 19, 0x600003c6) &&
            Has(b, 20, 0x3e9d7b78) && Has(b, 21, 0x0183fc00) && Has(b, 22, 0x12dcbfdb) && Has(b, 23, 0xe2e2c38e)
  {
    hide Has;
    Plain(b);
    NextWord(b, 16, 0x61626380, 0x00000000, 0x00000000, 0x00000000);
    NextWord(b, 17, 0x00000000, 0x00000000, 0x00000000, 0x00000018);
    NextWord(b, 18, 0x00000000, 0x00000000, 0x00000000, 0x61626380);
    NextWord(b, 19, 0x00000000, 0x00000000, 0x00000000, 0x000f0000);
    NextWord(b, 20, 0x00000000, 0x00000000, 0x00000000, 0x7da86405);
    NextWord(b, 21, 0x00000000, 0x00000000, 0x00000000, 0x600003c6);
    NextWord(b, 22, 0x00000000, 0x00000000, 0x00000018, 0x3e9d7b78);
    NextWord(b, 23, 0x00000000, 0x00000000, 0x61626380, 0x0183fc00);
  }

  lemma Schedule1(b: Chunk)
    requires AbcWords(b)
    requires Has(b, 16, 0x61626380) && Has(b, 17, 0x000f0000) && Has(b, 18, 0x7da86405) && Has(b, 19, 0x600003c6) &&
             Has(b, 20, 0x3e9d7b78) && Has(b, 21, 0x0183fc00) && Has(b, 22, 0x12dcbfdb) && Has(b, 23, 0xe2e2c38e)
    ensures Has(b, 24, 0xc8215c1a) && Has(b, 25, 0xb73679a2) && Has(b, 26, 0xe5bc3909) && Has(b, 27, 0x32663c5b) &&
            Has(b, 28, 0x9d209d67) && Has(b, 29, 0xec8726cb) && Has(b, 30, 0x702138a4) && Has(b, 31, 0xd3b7973b)
  {
    hide Has;
    Plain(b);
    NextWord(b, 24, 0x00000000, 0x00000000, 0x000f0000, 0x12dcbfdb);
    NextWord(b, 25, 0x00000000, 0x00000000, 0x7da86405, 0xe2e2c38e);
    NextWord(b, 26, 0x00000000, 0x00000000, 0x600003c6, 0xc8215c1a);
    NextWord(b, 27, 0x00000000, 0x00000000, 0x3e9d7b78, 0xb73679a2);
    NextWord(b, 28, 0x00000000, 0x00000000, 0x0183fc00, 0xe5bc3909);
    NextWord(b, 29, 0x00000000, 0x00000000, 0x12dcbfdb, 0x32663c5b);
    NextWord(b, 30, 0x00000000, 0x00000018, 0xe2e2c38e, 0x9d209d67);
    NextWord(b, 31, 0x00000018, 0x61626380, 0xc8215c1a, 0xec8726cb);
  }

  lemma Schedule2(b: Chunk)
    requires AbcWords(b)
    requires Has(b, 16, 0x61626380) && Has(b, 17, 0x000f0000) && Has(b, 18, 0x7da86405) && Has(b, 19, 0x600003c6) &&
             Has(b, 20, 0x3e9d7b78) && Has(b, 21, 0x0183fc00) && Has(b, 22, 0x12dcbfdb) && Has(b, 23, 0xe2e2c38e)
    requires Has(b, 24, 0xc8215c1a) && Has(b, 25, 0xb73679a2) && Has(b, 26, 0xe5bc3909) && Has(b, 27, 0x32663c5b) &&
             Has(b, 28, 0x9d209d67) && Has(b, 29, 0xec8726cb) && Has(b, 30, 0x702138a4) && Has(b, 31, 0xd3b7973b)
    ensures Has(b, 32, 0x93f5997f) && Has(b, 33, 0x3b68ba73) && Has(b, 34, 0xaff4ffc1) && Has(b, 35, 0xf10a5c62) &&
            Has(b, 36, 0x0a8b3996) && Has(b, 37, 0x72af830a) && Has(b, 38, 0x9409e33e) && Has(b, 39, 0x24641522)
  {
    hide Has;
    Plain(b);
    NextWord(b, 32, 0x61626380, 0x000f0000, 0xb73679a2, 0x702138a4);
    NextWord(b, 33, 0x000f0000, 0x7da86405, 0xe5bc3909, 0xd3b7973b);
    NextWord(b, 34, 0x7da86405, 0x600003c6, 0x32663c5b, 0x93f5997f);
    NextWord(b, 35, 0x600003c6, 0x3e9d7b78, 0x9d209d67, 0x3b68ba73);
    NextWord(b, 36, 0x3e9d7b78, 0x0183fc00, 0xec8726cb, 0xaff4ffc1);
    NextWord(b, 37, 0x0183fc00, 0x12dcbfdb, 0x702138a4, 0xf10a5c62);
    NextWord(b, 38, 0x12dcbfdb, 0xe2e2c38e, 0xd3b7973b, 0x0a8b3996);
    NextWord(b, 39, 0xe2e2c38e, 0xc8215c1a, 0x93f5997f, 0x72af830a);
  }

  lemma Schedule3(b: Chunk)
    requires AbcWords(b)
    requires Has(b, 24, 0xc8215c1a) && Has(b, 25, 0xb73679a2) && Has(b, 26, 0xe5bc3909) && Has(b, 27, 0x32663c5b) &&
             Has(b, 28, 0x9d209d67) && Has(b, 29, 0xec8726cb) && Has(b, 30, 0x702138a4) && Has(b, 31, 0xd3b7973b)
    requires Has(b, 32, 0x93f5997f) && Has(b, 33, 0x3b68ba73) && Has(b, 34, 0xaff4ffc1) && Has(b, 35, 0xf10a5c62) &&
             Has(b, 36, 0x0a8b3996) && Has(b, 37, 0x72af830a) && Has(b, 38, 0x9409e33e) && Has(b, 39, 0x24641522)
    ensures Has(b, 40, 0x9f47bf94) && Has(b, 41, 0xf0a64f5a) && Has(b, 42, 0x3e246a79) && Has(b, 43, 0x27333ba3) &&
            Has(b, 44, 0x0c4763f2) && Has(b, 45, 0x840abf27) && Has(b, 46, 0x7a290d5d) && Has(b, 47, 0x065c43da)
  {
    hide Has;
    Plain(b);
    NextWord(b, 40, 0xc8215c1a, 0xb73679a2, 0x3b68ba73, 0x9409e33e);
    NextWord(b, 41, 0xb73679a2, 0xe5bc3909, 0xaff4ffc1, 0x24641522);
    NextWord(b, 42, 0xe5bc3909, 0x32663c5b, 0xf10a5c62, 0x9f47bf94);
    NextWord(b, 43, 0x32663c5b, 0x9d209d67, 0x0a8b3996, 0xf0a64f5a);
    NextWord(b, 44, 0x9d209d67, 0xec8726cb, 0x72af830a, 0x3e246a79);
    NextWord(b, 45, 0xec8726cb, 0x702138a4, 0x9409e33e, 0x27333ba3);
    NextWord(b, 46, 0x702138a4, 0xd3b7973b, 0x24641522, 0x0c4763f2);
    NextWord(b, 47, 0xd3b7973b, 0x93f5997f, 0x9f47bf94, 0x840abf27);
  }

  lemma Schedule4(b: Chunk)
    requires AbcWords(b)
    requires Has(b, 32, 0x93f5997f) && Has(b, 33, 0x3b68ba73) && Has(b, 34, 0xaff4ffc1) && Has(b, 35, 0xf10a5c62) &&
             Has(b, 36, 0x0a8b3996) && Has(b, 37, 0x72af830a) && Has(b, 38, 0x9409e33e) && Has(b, 39, 0x24641522)
    requires Has(b, 40, 0x9f47bf94) && Has(b, 41, 0xf0a64f5a) && Has(b, 42, 0x3e246a79) && Has(b, 43, 0x27333ba3) &&
             Has(b, 44, 0x0c4763f2) && Has(b, 45, 0x840abf27) && Has(b, 46, 0x7a290d5d) && Has(b, 47, 0x065c43da)
    ensures Has(b, 48, 0xfb3e89cb) && Has(b, 49, 0xcc7617db) && Has(b, 50, 0xb9e66c34) && Has(b, 51, 0xa9993667) &&
            Has(b, 52, 0x84badedd) && Has(b, 53, 0xc21462bc) && Has(b, 54, 0x1487472c) && Has(b, 55, 0xb20f7a99)
  {
    hide Has;
    Plain(b);
    NextWord(b, 48, 0x93f5997f, 0x3b68ba73, 0xf0a64f5a, 0x7a290d5d);
    NextWord(b, 49, 0x3b68ba73, 0xaff4ffc1, 0x3e246a79, 0x065c43da);
    NextWord(b, 50, 0xaff4ffc1, 0xf10a5c62, 0x27333ba3, 0xfb3e89cb);
    NextWord(b, 51, 0xf10a5c62, 0x0a8b3996, 0x0c4763f2, 0xcc7617db);
    NextWord(b, 52, 0x0a8b3996, 0x72af830a, 0x840abf27, 0xb9e66c34);
    NextWord(b, 53, 0x72af830a, 0x9409e33e, 0x7a290d5d, 0xa9993667);
    NextWord(b, 54, 0x9409e33e, 0x24641522, 0x065c43da, 0x84badedd);
    NextWord(b, 55, 0x24641522, 0x9f47bf94, 0xfb3e89cb, 0xc21462bc);
  }

  lemma Schedule5(b: Chunk)
    requires AbcWords(b)
    requires Has(b, 40, 0x9f47bf94) && Has(b, 41, 0xf0a64f5a) && Has(b, 42, 0x3e246a79) && Has(b, 43, 0x27333ba3) &&
             Has(b, 44, 0x0c4763f2) && Has(b, 45, 0x840abf27) && Has(b, 46, 0x7a290d5d) && Has(b, 47, 0x065c43da)
    requires Has(b, 48, 0xfb3e89cb) && Has(b, 49, 0xcc7617db) && Has(b, 50, 0xb9e66c34) && Has(b, 51, 0xa9993667) &&
             Has(b, 52, 0x84badedd) && Has(b, 53, 0xc21462bc) && Has(b, 54, 0x1487472c) && Has(b, 55, 0xb20f7a99)
    ensures Has(b, 56, 0xef57b9cd) && Has(b, 57, 0xebe6b238) && Has(b, 58, 0x9fe3095e) && Has(b, 59, 0x78bc8d4b) &&
            Has(b, 60, 0xa43fcf15) && Has(b, 61, 0x668b2ff8) && Has(b, 62, 0xeeaba2cc) && Has(b, 63, 0x12b1edeb)
  {
    hide Has;
    Plain(b);
    NextWord(b, 56, 0x9f47bf94, 0xf0a64f5a, 0xcc7617db, 0x1487472c);
    NextWord(b, 57, 0xf0a64f5a, 0x3e246a79, 0xb9e66c34, 0xb20f7a99);
    NextWord(b, 58, 0x3e246a79, 0x27333ba3, 0xa9993667, 0xef57b9cd);
    NextWord(b, 59, 0x27333ba3, 0x0c4763f2, 0x84badedd, 0xebe6b238);
    NextWord(b, 60, 0x0c4763f2, 0x840abf27, 0xc21462bc, 0x9fe3095e);
    NextWord(b, 61, 0x840abf27, 0x7a290d5d, 0x1487472c, 0x78bc8d4b);
    NextWord(b, 62, 0x7a290d5d, 0x065c43da, 0xb20f7a99, 0xa43fcf15);
    NextWord(b, 63, 0x065c43da, 0xfb3e89cb, 0xef57b9cd, 0x668b2ff8);
  }

  lemma Plain(b: Chunk)
    requires AbcWords(b)
    ensures Has(b, 0, 0x61626380) && Has(b, 15, 0x18)
    ensures Has(b, 1, 0) && Has(b, 2, 0) && Has(b, 3, 0) && Has(b, 4, 0) && Has(b, 5, 0) && Has(b, 6, 0) && Has(b, 7, 0)
    ensures Has(b, 8, 0) && Has(b, 9, 0) && Has(b, 10, 0) && Has(b, 11, 0) && Has(b, 12, 0) && Has(b, 13, 0) &&
            Has(b, 14, 0)
  {
    hide Has;
  }

  // ---------- the steps ----------

  lemma Turn(b: Chunk, t: nat, k: Sha256.Word, w: Sha256.Word, v: Working, v': Working)
    requires t < 64 && Steps(INITIAL, b, t) == v && K[t] == k && Has(b, t, w) && Step(v, k, w) == v'
    ensures Steps(INITIAL, b, t + 1) == v'
  {
    hide Step, Scheduled;
  }
  const V0 := Working(0x6a09e667, 0xbb67ae85, 0x3c6ef372, 0xa54ff53a, 0x510e527f, 0x9b05688c, 0x1f83d9ab, 0x5be0cd19)
  const V1 := Working(0x5d6aebcd, 0x6a09e667, 0xbb67ae85, 0x3c6ef372, 0xfa2a4622, 0x510e527f, 0x9b05688c, 0x1f83d9ab)
  const V2 := Working(0x5a6ad9ad, 0x5d6aebcd, 0x6a09e667, 0xbb67ae85, 0x78ce7989, 0xfa2a4622, 0x510e527f, 0x9b05688c)
  const V3 := Working(0xc8c347a7, 0x5a6ad9ad, 0x5d6aebcd, 0x6a09e667, 0xf92939eb, 0x78ce7989, 0xfa2a4622, 0x510e527f)
  const V4 := Working(0xd550f666, 0xc8c347a7, 0x5a6ad9ad, 0x5d6aebcd, 0x24e00850, 0xf92939eb, 0x78ce7989, 0xfa2a4622)
  const V5 := Working(0x04409a6a, 0xd550f666, 0xc8c347a7, 0x5a6ad9ad, 0x43ada245, 0x24e00850, 0xf92939eb, 0x78ce7989)
  const V6 := Working(0x2b4209f5, 0x04409a6a, 0xd550f666, 0xc8c347a7, 0x714260ad, 0x43ada245, 0x24e00850, 0xf92939eb)
  const V7 := Working(0xe5030380, 0x2b4209f5, 0x04409a6a, 0xd550f666, 0x9b27a401, 0x714260ad, 0x43ada245, 0x24e00850)
  const V8 := Working(0x85a07b5f, 0xe5030380, 0x2b4209f5, 0x04409a6a, 0x0c657a79, 0x9b27a401, 0x714260ad, 0x43ada245)
  const V9 := Working(0x8e04ecb9, 0x85a07b5f, 0xe5030380, 0x2b4209f5, 0x32ca2d8c, 0x0c657a79, 0x9b27a401, 0x714260ad)
  const V10 := Working(0x8c87346b, 0x8e04ecb9, 0x85a07b5f, 0xe5030380, 0x1cc92596, 0x32ca2d8c, 0x0c657a79, 0x9b27a401)
  const V11 := Working(0x4798a3f4, 0x8c87346b, 0x8e04ecb9, 0x85a07b5f, 0x436b23e8, 0x1cc92596, 0x32ca2d8c, 0x0c657a79)
  const V12 := Working(0xf71fc5a9, 0x4798a3f4, 0x8c87346b, 0x8e04ecb9, 0x816fd6e9, 0x436b23e8, 0x1cc92596, 0x32ca2d8c)
  const V13 := Working(0x87912990, 0xf71fc5a9, 0x4798a3f4, 0x8c87346b, 0x1e578218, 0x816fd6e9, 0x436b23e8, 0x1cc92596)
  const V14 := Working(0xd932eb16, 0x87912990, 0xf71fc5a9, 0x4798a3f4, 0x745a48de, 0x1e578218, 0x816fd6e9, 0x436b23e8)
  const V15 := Working(0xc0645fde, 0xd932eb16, 0x87912990, 0xf71fc5a9, 0x0b92f20c, 0x745a48de, 0x1e578218, 0x816fd6e9)
  const V16 := Working(0xb0fa238e, 0xc0645fde, 0xd932eb16, 0x87912990, 0x07590dcd, 0x0b92f20c, 0x745a48de, 0x1e578218)
  const V17 := Working(0x21da9a9b, 0xb0fa238e, 0xc0645fde, 0xd932eb16, 0x8034229c, 0x07590dcd, 0x0b92f20c, 0x745a48de)
  const V18 := Working(0xc2fbd9d1, 0x21da9a9b, 0xb0fa238e, 0xc0645fde, 0x846ee454, 0x8034229c, 0x07590dcd, 0x0b92f20c)
  const V19 := Working(0xfe777bbf, 0xc2fbd9d1, 0x21da9a9b, 0xb0fa238e, 0xcc899961, 0x846ee454, 0x8034229c, 0x07590dcd)
  const V20 := Working(0xe1f20c33, 0xfe777bbf, 0xc2fbd9d1, 0x21da9a9b, 0xb0638179, 0xcc899961, 0x846ee454, 0x8034229c)
  const V21 := Working(0x9dc68b63, 0xe1f20c33, 0xfe777bbf, 0xc2fbd9d1, 0x8ada8930, 0xb0638179, 0xcc899961, 0x846ee454)
  const V22 := Working(0xc2606d6d, 0x9dc68b63, 0xe1f20c33, 0xfe777bbf, 0xe1257970, 0x8ada8930, 0xb0638179, 0xcc899961)
  const V23 := Working(0xa7a3623f, 0xc2606d6d, 0x9dc68b63, 0xe1f20c33, 0x49f5114a, 0xe1257970, 0x8ada8930, 0xb0638179)
  const V24 := Working(0xc5d53d8d, 0xa7a3623f, 0xc2606d6d, 0x9dc68b63, 0xaa47c347, 0x49f5114a, 0xe1257970, 0x8ada8930)
  const V25 := Working(0x1c2c2838, 0xc5d53d8d, 0xa7a3623f, 0xc2606d6d, 0x2823ef91, 0xaa47c347, 0x49f5114a, 0xe1257970)
  const V26 := Working(0xcde8037d, 0x1c2c2838, 0xc5d53d8d, 0xa7a3623f, 0x14383d8e, 0x2823ef91, 0xaa47c347, 0x49f5114a)
  const V27 := Working(0xb62ec4bc, 0xcde8037d, 0x1c2c2838, 0xc5d53d8d, 0xc74c6516, 0x14383d8e, 0x2823ef91, 0xaa47c347)
  const V28 := Working(0x77d37528, 0xb62ec4bc, 0xcde8037d, 0x1c2c2838, 0xedffbff8, 0xc74c6516, 0x14383d8e, 0x2823ef91)
  const V29 := Working(0x363482c9, 0x77d37528, 0xb62ec4bc, 0xcde8037d, 0x6112a3b7, 0xedffbff8, 0xc74c6516, 0x14383d8e)
  const V30 := Working(0xa0060b30, 0x363482c9, 0x77d37528, 0xb62ec4bc, 0xade79437, 0x6112a3b7, 0xedffbff8, 0xc74c6516)
  const V31 := Working(0xea992a22, 0xa0060b30, 0x363482c9, 0x77d37528, 0x0109ab3a, 0xade79437, 0x6112a3b7, 0xedffbff8)
  const V32 := Working(0x73b33bf5, 0xea992a22, 0xa0060b30, 0x363482c9, 0xba591112, 0x0109ab3a, 0xade79437, 0x6112a3b7)
  const V33 := Working(0x98e12507, 0x73b33bf5, 0xea992a22, 0xa0060b30, 0x9cd9f5f6, 0xba591112, 0x0109ab3a, 0xade79437)
  const V34 := Working(0xfe604df5, 0x98e12507, 0x73b33bf5, 0xea992a22, 0x59249dd3, 0x9cd9f5f6, 0xba591112, 0x0109ab3a)
  const V35 := Working(0xa9a7738c, 0xfe604df5, 0x98e12507, 0x73b33bf5, 0x085f3833, 0x59249dd3, 0x9cd9f5f6, 0xba591112)
  const V36 := Working(0x65a0cfe4, 0xa9a7738c, 0xfe604df5, 0x98e12507, 0xf4b002d6, 0x085f3833, 0x59249dd3, 0x9cd9f5f6)
  const V37 := Working(0x41a65cb1, 0x65a0cfe4, 0xa9a7738c, 0xfe604df5, 0x0772a26b, 0xf4b002d6, 0x085f3833, 0x59249dd3)
  const V38 := Working(0x34df1604, 0x41a65cb1, 0x65a0cfe4, 0xa9a7738c, 0xa507a53d, 0x0772a26b, 0xf4b002d6, 0x085f3833)
  const V39 := Working(0x6dc57a8a, 0x34df1604, 0x41a65cb1, 0x65a0cfe4, 0xf0781bc8, 0xa507a53d, 0x0772a26b, 0xf4b002d6)
  const V40 := Working(0x79ea687a, 0x6dc57a8a, 0x34df1604, 0x41a65cb1, 0x1efbc0a0, 0xf0781bc8, 0xa507a53d, 0x0772a26b)
  const V41 := Working(0xd6670766, 0x79ea687a, 0x6dc57a8a, 0x34df1604, 0x26352d63, 0x1efbc0a0, 0xf0781bc8, 0xa507a53d)
  const V42 := Working(0xdf46652f, 0xd6670766, 0x79ea687a, 0x6dc57a8a, 0x838b2711, 0x26352d63, 0x1efbc0a0, 0xf0781bc8)
  const V43 := Working(0x17aa0dfe, 0xdf46652f, 0xd6670766, 0x79ea687a, 0xdecd4715, 0x838b2711, 0x26352d63, 0x1efbc0a0)
  const V44 := Working(0x9d4baf93, 0x17aa0dfe, 0xdf46652f, 0xd6670766, 0xfda24c2e, 0xdecd4715, 0x838b2711, 0x26352d63)
  const V45 := Working(0x26628815, 0x9d4baf93, 0x17aa0dfe, 0xdf46652f, 0xa80f11f0, 0xfda24c2e, 0xdecd4715, 0x838b2711)
  const V46 := Working(0x72ab4b91, 0x26628815, 0x9d4baf93, 0x17aa0dfe, 0xb7755da1, 0xa80f11f0, 0xfda24c2e, 0xdecd4715)
  const V47 := Working(0xa14c14b0, 0x72ab4b91, 0x26628815, 0x9d4baf93, 0xd57b94a9, 0xb7755da1, 0xa80f11f0, 0xfda24c2e)
  const V48 := Working(0x4172328d, 0xa14c14b0, 0x72ab4b91, 0x26628815, 0xfecf0bc6, 0xd57b94a9, 0xb7755da1, 0xa80f11f0)
  const V49 := Working(0x05757ceb, 0x4172328d, 0xa14c14b0, 0x72ab4b91, 0xbd714038, 0xfecf0bc6, 0xd57b94a9, 0xb7755da1)
  const V50 := Working(0xf11bfaa8, 0x05757ceb, 0x4172328d, 0xa14c14b0, 0x6e5c390c, 0xbd714038, 0xfecf0bc6, 0xd57b94a9)
  const V51 := Working(0x7a0508a1, 0xf11bfaa8, 0x05757ceb, 0x4172328d, 0x52f1ccf7, 0x6e5c390c, 0xbd714038, 0xfecf0bc6)
  const V52 := Working(0x886e7a22, 0x7a0508a1, 0xf11bfaa8, 0x05757ceb, 0x49231c1e, 0x52f1ccf7, 0x6e5c390c, 0xbd714038)
  const V53 := Working(0x101fd28f, 0x886e7a22, 0x7a0508a1, 0xf11bfaa8, 0x529e7d00, 0x49231c1e, 0x52f1ccf7, 0x6e5c390c)
  const V54 := Working(0xf5702fdb, 0x101fd28f, 0x886e7a22, 0x7a0508a1, 0x9f4787c3, 0x529e7d00, 0x49231c1e, 0x52f1ccf7)
  const V55 := Working(0x3ec45cdb, 0xf5702fdb, 0x101fd28f, 0x886e7a22, 0xe50e1b4f, 0x9f4787c3, 0x529e7d00, 0x49231c1e)
  const V56 := Working(0x38cc9913, 0x3ec45cdb, 0xf5702fdb, 0x101fd28f, 0x54cb266b, 0xe50e1b4f, 0x9f4787c3, 0x529e7d00)
  const V57 := Working(0xfcd1887b, 0x38cc9913, 0x3ec45cdb, 0xf5702fdb, 0x9b5e906c, 0x54cb266b, 0xe50e1b4f, 0x9f4787c3)
  const V58 := Working(0xc062d46f, 0xfcd1887b, 0x38cc9913, 0x3ec45cdb, 0x7e44008e, 0x9b5e906c, 0x54cb266b, 0xe50e1b4f)
  const V59 := Working(0xffb70472, 0xc062d46f, 0xfcd1887b, 0x38cc9913, 0x6d83bfc6, 0x7e44008e, 0x9b5e906c, 0x54cb266b)
  const V60 := Working(0xb6ae8fff, 0xffb70472, 0xc062d46f, 0xfcd1887b, 0xb21bad3d, 0x6d83bfc6, 0x7e44008e, 0x9b5e906c)
  const V61 := Working(0xb85e2ce9, 0xb6ae8fff, 0xffb70472, 0xc062d46f, 0x961f4894, 0xb21bad3d, 0x6d83bfc6, 0x7e44008e)
  const V62 := Working(0x04d24d6c, 0xb85e2ce9, 0xb6ae8fff, 0xffb70472, 0x948d25b6, 0x961f4894, 0xb21bad3d, 0x6d83bfc6)
  const V63 := Working(0xd39a2165, 0x04d24d6c, 0xb85e2ce9, 0xb6ae8fff, 0xfb121210, 0x948d25b6, 0x961f4894, 0xb21bad3d)
  const V64 := Working(0x506e3058, 0xd39a2165, 0x04d24d6c, 0xb85e2ce9, 0x5ef50f24, 0xfb121210, 0x948d25b6, 0x961f4894)

  lemma Values0()
    ensures Step(V0, 0x428a2f98, 0x61626380) == V1
    ensures Step(V1, 0x71374491, 0x00000000) == V2
    ensures Step(V2, 0xb5c0fbcf, 0x00000000) == V3
    ensures Step(V3, 0xe9b5dba5, 0x00000000) == V4
    ensures Step(V4, 0x3956c25b, 0x00000000) == V5
    ensures Step(V5, 0x59f111f1, 0x00000000) == V6
    ensures Step(V6, 0x923f82a4, 0x00000000) == V7
    ensures Step(V7, 0xab1c5ed5, 0x00000000) == V8
  {
  }

  lemma Constants0()
    ensures |K| == 64
    ensures K[0] == 0x428a2f98 && K[1] == 0x71374491 && K[2] == 0xb5c0fbcf && K[3] == 0xe9b5dba5
    ensures K[4] == 0x3956c25b && K[5] == 0x59f111f1 && K[6] == 0x923f82a4 && K[7] == 0xab1c5ed5
  {
  }

  lemma Steps0(b: Chunk)
    requires Has(b, 0, 0x61626380) && Has(b, 1, 0x00000000) && Has(b, 2, 0x00000000) && Has(b, 3, 0x00000000) &&
             Has(b, 4, 0x00000000) && Has(b, 5, 0x00000000) && Has(b, 6, 0x00000000) && Has(b, 7, 0x00000000)
    requires Steps(INITIAL, b, 0) == V0
    ensures Steps(INITIAL, b, 8) == V8
  {
    hide Steps, Step, Has, Scheduled, INITIAL, K, V0, V1, V2, V3, V4, V5, V6, V7, V8;
    Values0();
    Constants0();
    Turn(b, 0, 0x428a2f98, 0x61626380, V0, V1);
    Turn(b, 1, 0x71374491, 0x00000000, V1, V2);
    Turn(b, 2, 0xb5c0fbcf, 0x00000000, V2, V3);
    Turn(b, 3, 0xe9b5dba5, 0x00000000, V3, V4);
    Turn(b, 4, 0x3956c25b, 0x00000000, V4, V5);
    Turn(b, 5, 0x59f111f1, 0x00000000, V5, V6);
    Turn(b, 6, 0x923f82a4, 0x00000000, V6, V7);
    Turn(b, 7, 0xab1c5ed5, 0x00000000, V7, V8);
  }

  lemma Values1()
    ensures Step(V8, 0xd807aa98, 0x00000000) == V9
    ensures Step(V9, 0x12835b01, 0x00000000) == V10
    ensures Step(V10, 0x243185be, 0x00000000) == V11
    ensures Step(V11, 0x550c7dc3, 0x00000000) == V12
    ensures Step(V12, 0x72be5d74, 0x00000000) == V13
    ensures Step(V13, 0x80deb1fe, 0x00000000) == V14
    ensures Step(V14, 0x9bdc06a7, 0x00000000) == V15
    ensures Step(V15, 0xc19bf174, 0x00000018) == V16
  {
  }

  lemma Constants1()
    ensures |K| == 64
    ensures K[8] == 0xd807aa98 && K[9] == 0x12835b01 && K[10] == 0x243185be && K[11] == 0x550c7dc3
    ensures K[12] == 0x72be5d74 && K[13] == 0x80deb1fe && K[14] == 0x9bdc06a7 && K[15] == 0xc19bf174
  {
  }

  lemma Steps1(b: Chunk)
    requires Has(b, 8, 0x00000000) && Has(b, 9, 0x00000000) && Has(b, 10, 0x00000000) && Has(b, 11, 0x00000000) &&
             Has(b, 12, 0x00000000) && Has(b, 13, 0x00000000) && Has(b, 14, 0x00000000) && Has(b, 15, 0x00000018)
    requires Steps(INITIAL, b, 8) == V8
    ensures Steps(INITIAL, b, 16) == V16
  {
    hide Steps, Step, Has, Scheduled, INITIAL, K, V8, V9, V10, V11, V12, V13, V14, V15, V16;
    Values1();
    Constants1();
    Turn(b, 8, 0xd807aa98, 0x00000000, V8, V9);
    Turn(b, 9, 0x12835b01, 0x00000000, V9, V10);
    Turn(b, 10, 0x243185be, 0x00000000, V10, V11);
    Turn(b, 11, 0x550c7dc3, 0x00000000, V11, V12);
    Turn(b, 12, 0x72be5d74, 0x00000000, V12, V13);
    Turn(b, 13, 0x80deb1fe, 0x00000000, V13, V14);
    Turn(b, 14, 0x9bdc06a7, 0x00000000, V14, V15);
    Turn(b, 15, 0xc19bf174, 0x00000018, V15, V16);
  }

  lemma Values2()
    ensures Step(V16, 0xe49b69c1, 0x61626380) == V17
    ensures Step(V17, 0xefbe4786, 0x000f0000) == V18
    ensures Step(V18, 0x0fc19dc6, 0x7da86405) == V19
    ensures Step(V19, 0x240ca1cc, 0x600003c6) == V20
    ensures Step(V20, 0x2de92c6f, 0x3e9d7b78) == V21
    ensures Step(V21, 0x4a7484aa, 0x0183fc00) == V22
    ensures Step(V22, 0x5cb0a9dc, 0x12dcbfdb) == V23
    ensures Step(V23, 0x76f988da, 0xe2e2c38e) == V24
  {
  }

  lemma Constants2()
    ensures |K| == 64
    ensures K[16] == 0xe49b69c1 && K[17] == 0xefbe4786 && K[18] == 0x0fc19dc6 && K[19] == 0x240ca1cc
    ensures K[20] == 0x2de92c6f && K[21] == 0x4a7484aa && K[22] == 0x5cb0a9dc && K[23] == 0x76f988da
  {
  }

  lemma Steps2(b: Chunk)
    requires Has(b, 16, 0x61626380) && Has(b, 17, 0x000f0000) && Has(b, 18, 0x7da86405) && Has(b, 19, 0x600003c6) &&
             Has(b, 20, 0x3e9d7b78) && Has(b, 21, 0x0183fc00) && Has(b, 22, 0x12dcbfdb) && Has(b, 23, 0xe2e2c38e)
    requires Steps(INITIAL, b, 16) == V16
    ensures Steps(INITIAL, b, 24) == V24
  {
    hide Steps, Step, Has, Scheduled, INITIAL, K, V16, V17, V18, V19, V20, V21, V22, V23, V24;
    Values2();
    Constants2();
    Turn(b, 16, 0xe49b69c1, 0x61626380, V16, V17);
    Turn(b, 17, 0xefbe4786, 0x000f0000, V17, V18);
    Turn(b, 18, 0x0fc19dc6, 0x7da86405, V18, V19);
    Turn(b, 19, 0x240ca1cc, 0x600003c6, V19, V20);
    Turn(b, 20, 0x2de92c6f, 0x3e9d7b78, V20, V21);
    Turn(b, 21, 0x4a7484aa, 0x0183fc00, V21, V22);
    Turn(b, 22, 0x5cb0a9dc, 0x12dcbfdb, V22, V23);
    Turn(b, 23, 0x76f988da, 0xe2e2c38e, V23, V24);
  }

  lemma Values3()
    ensures Step(V24, 0x983e5152, 0xc8215c1a) == V25
    ensures Step(V25, 0xa831c66d, 0xb73679a2) == V26
    ensures Step(V26, 0xb00327c8, 0xe5bc3909) == V27
    ensures Step(V27, 0xbf597fc7, 0x32663c5b) == V28
    ensures Step(V28, 0xc6e00bf3, 0x9d209d67) == V29
    ensures Step(V29, 0xd5a79147, 0xec8726cb) == V30
    ensures Step(V30, 0x06ca6351, 0x702138a4) == V31
    ensures Step(V31, 0x14292967, 0xd3b7973b) == V32
  {
  }

  lemma Constants3()
    ensures |K| == 64
    ensures K[24] == 0x983e5152 && K[25] == 0xa831c66d && K[26] == 0xb00327c8 && K[27] == 0xbf597fc7
    ensures K[28] == 0xc6e00bf3 && K[29] == 0xd5a79147 && K[30] == 0x06ca6351 && K[31] == 0x14292967
  {
  }

  lemma Steps3(b: Chunk)
    requires Has(b, 24, 0xc8215c1a) && Has(b, 25, 0xb73679a2) && Has(b, 26, 0xe5bc3909) && Has(b, 27, 0x32663c5b) &&
             Has(b, 28, 0x9d209d67) && Has(b, 29, 0xec8726cb) && Has(b, 30, 0x702138a4) && Has(b, 31, 0xd3b7973b)
    requires Steps(INITIAL, b, 24) == V24
    ensures Steps(INITIAL, b, 32) == V32
  {
    hide Steps, Step, Has, Scheduled, INITIAL, K, V24, V25, V26, V27, V28, V29, V30, V31, V32;
    Values3();
    Constants3();
    Turn(b, 24, 0x983e5152, 0xc8215c1a, V24, V25);
    Turn(b, 25, 0xa831c66d, 0xb73679a2, V25, V26);
    Turn(b, 26, 0xb00327c8, 0xe5bc3909, V26, V27);
    Turn(b, 27, 0xbf597fc7, 0x32663c5b, V27, V28);
    Turn(b, 28, 0xc6e00bf3, 0x9d209d67, V28, V29);
    Turn(b, 29, 0xd5a79147, 0xec8726cb, V29, V30);
    Turn(b, 30, 0x06ca6351, 0x702138a4, V30, V31);
    Turn(b, 31, 0x14292967, 0xd3b7973b, V31, V32);
  }

  lemma Values4()
    ensures Step(V32, 0x27b70a85, 0x93f5997f) == V33
    ensures Step(V33, 0x2e1b2138, 0x3b68ba73) == V34
    ensures Step(V34, 0x4d2c6dfc, 0xaff4ffc1) == V35
    ensures Step(V35, 0x53380d13, 0xf10a5c62) == V36
    ensures Step(V36, 0x650a7354, 0x0a8b3996) == V37
    ensures Step(V37, 0x766a0abb, 0x72af830a) == V38
    ensures Step(V38, 0x81c2c92e, 0x9409e33e) == V39
    ensures Step(V39, 0x92722c85, 0x24641522) == V40
  {
  }

  lemma Constants4()
    ensures |K| == 64
    ensures K[32] == 0x27b70a85 && K[33] == 0x2e1b2138 && K[34] == 0x4d2c6dfc && K[35] == 0x53380d13
    ensures K[36] == 0x650a7354 && K[37] == 0x766a0abb && K[38] == 0x81c2c92e && K[39] == 0x92722c85
  {
  }

  lemma Steps4(b: Chunk)
    requires Has(b, 32, 0x93f5997f) && Has(b, 33, 0x3b68ba73) && Has(b, 34, 0xaff4ffc1) && Has(b, 35, 0xf10a5c62) &&
             Has(b, 36, 0x0a8b3996) && Has(b, 37, 0x72af830a) && Has(b, 38, 0x9409e33e) && Has(b, 39, 0x24641522)
    requires Steps(INITIAL, b, 32) == V32
    ensures Steps(INITIAL, b, 40) == V40
  {
    hide Steps, Step, Has, Scheduled, INITIAL, K, V32, V33, V34, V35, V36, V37, V38, V39, V40;
    Values4();
    Constants4();
    Turn(b, 32, 0x27b70a85, 0x93f5997f, V32, V33);
    Turn(b, 33, 0x2e1b2138, 0x3b68ba73, V33, V34);
    Turn(b, 34, 0x4d2c6dfc, 0xaff4ffc1, V34, V35);
    Turn(b, 35, 0x53380d13, 0xf10a5c62, V35, V36);
    Turn(b, 36, 0x650a7354, 0x0a8b3996, V36, V37);
    Turn(b, 37, 0x766a0abb, 0x72af830a, V37, V38);
    Turn(b, 38, 0x81c2c92e, 0x9409e33e, V38, V39);
    Turn(b, 39, 0x92722c85, 0x24641522, V39, V40);
  }

  lemma Values5()
    ensures Step(V40, 0xa2bfe8a1, 0x9f47bf94) == V41
    ensures Step(V41, 0xa81a664b, 0xf0a64f5a) == V42
    ensures Step(V42, 0xc24b8b70, 0x3e246a79) == V43
    ensures Step(V43, 0xc76c51a3, 0x27333ba3) == V44
    ensures Step(V44, 0xd192e819, 0x0c4763f2) == V45
    ensures Step(V45, 0xd6990624, 0x840abf27) == V46
    ensures Step(V46, 0xf40e3585, 0x7a290d5d) == V47
    ensures Step(V47, 0x106aa070, 0x065c43da) == V48
  {
  }

  lemma Constants5()
    ensures |K| == 64
    ensures K[40] == 0xa2bfe8a1 && K[41] == 0xa81a664b && K[42] == 0xc24b8b70 && K[43] == 0xc76c51a3
    ensures K[44] == 0xd192e819 && K[45] == 0xd6990624 && K[46] == 0xf40e3585 && K[47] == 0x106aa070
  {
  }

  lemma Steps5(b: Chunk)
    requires Has(b, 40, 0x9f47bf94) && Has(b, 41, 0xf0a64f5a) && Has(b, 42, 0x3e246a79) && Has(b, 43, 0x27333ba3) &&
             Has(b, 44, 0x0c4763f2) && Has(b, 45, 0x840abf27) && Has(b, 46, 0x7a290d5d) && Has(b, 47, 0x065c43da)
    requires Steps(INITIAL, b, 40) == V40
    ensures Steps(INITIAL, b, 48) == V48
  {
    hide Steps, Step, Has, Scheduled, INITIAL, K, V40, V41, V42, V43, V44, V45, V46, V47, V48;
    Values5();
    Constants5();
    Turn(b, 40, 0xa2bfe8a1, 0x9f47bf94, V40, V41);
    Turn(b, 41, 0xa81a664b, 0xf0a64f5a, V41, V42);
    Turn(b, 42, 0xc24b8b70, 0x3e246a79, V42, V43);
    Turn(b, 43, 0xc76c51a3, 0x27333ba3, V43, V44);
    Turn(b, 44, 0xd192e819, 0x0c4763f2, V44, V45);
    Turn(b, 45, 0xd6990624, 0x840abf27, V45, V46);
    Turn(b, 46, 0xf40e3585, 0x7a290d5d, V46, V47);
    Turn(b, 47, 0x106aa070, 0x065c43da, V47, V48);
  }

  lemma Values6()
    ensures Step(V48, 0x19a4c116, 0xfb3e89cb) == V49
    ensures Step(V49, 0x1e376c08, 0xcc7617db) == V50
    ensures Step(V50, 0x2748774c, 0xb9e66c34) == V51
    ensures Step(V51, 0x34b0bcb5, 0xa9993667) == V52
    ensures Step(V52, 0x391c0cb3, 0x84badedd) == V53
    ensures Step(V53, 0x4ed8aa4a, 0xc21462bc) == V54
    ensures Step(V54, 0x5b9cca4f, 0x1487472c) == V55
    ensures Step(V55, 0x682e6ff3, 0xb20f7a99) == V56
  {
  }

  lemma Constants6()
    ensures |K| == 64
    ensures K[48] == 0x19a4c116 && K[49] == 0x1e376c08 && K[50] == 0x2748774c && K[51] == 0x34b0bcb5
    ensures K[52] == 0x391c0cb3 && K[53] == 0x4ed8aa4a && K[54] == 0x5b9cca4f && K[55] == 0x682e6ff3
  {
  }

  lemma Steps6(b: Chunk)
    requires Has(b, 48, 0xfb3e89cb) && Has(b, 49, 0xcc7617db) && Has(b, 50, 0xb9e66c34) && Has(b, 51, 0xa9993667) &&
             Has(b, 52, 0x84badedd) && Has(b, 53, 0xc21462bc) && Has(b, 54, 0x1487472c) && Has(b, 55, 0xb20f7a99)
    requires Steps(INITIAL, b, 48) == V48
    ensures Steps(INITIAL, b, 56) == V56
  {
    hide Steps, Step, Has, Scheduled, INITIAL, K, V48, V49, V50, V51, V52, V53, V54, V55, V56;
    Values6();
    Constants6();
    Turn(b, 48, 0x19a4c116, 0xfb3e89cb, V48, V49);
    Turn(b, 49, 0x1e376c08, 0xcc7617db, V49, V50);
    Turn(b, 50, 0x2748774c, 0xb9e66c34, V50, V51);
    Turn(b, 51, 0x34b0bcb5, 0xa9993667, V51, V52);
    Turn(b, 52, 0x391c0cb3, 0x84badedd, V52, V53);
    Turn(b, 53, 0x4ed8aa4a, 0xc21462bc, V53, V54);
    Turn(b, 54, 0x5b9cca4f, 0x1487472c, V54, V55);
    Turn(b, 55, 0x682e6ff3, 0xb20f7a99, V55, V56);
  }

  lemma Values7()
    ensures Step(V56, 0x748f82ee, 0xef57b9cd) == V57
    ensures Step(V57, 0x78a5636f, 0xebe6b238) == V58
    ensures Step(V58, 0x84c87814, 0x9fe3095e) == V59
    ensures Step(V59, 0x8cc70208, 0x78bc8d4b) == V60
    ensures Step(V60, 0x90befffa, 0xa43fcf15) == V61
    ensures Step(V61, 0xa4506ceb, 0x668b2ff8) == V62
    ensures Step(V62, 0xbef9a3f7, 0xeeaba2cc) == V63
    ensures Step(V63, 0xc67178f2, 0x12b1edeb) == V64
  {
  }

  lemma Constants7()
    ensures |K| == 64
    ensures K[56] == 0x748f82ee && K[57] == 0x78a5636f && K[58] == 0x84c87814 && K[59] == 0x8cc70208
    ensures K[60] == 0x90befffa && K[61] == 0xa4506ceb && K[62] == 0xbef9a3f7 && K[63] == 0xc67178f2
  {
  }

  lemma Steps7(b: Chunk)
    requires Has(b, 56, 0xef57b9cd) && Has(b, 57, 0xebe6b238) && Has(b, 58, 0x9fe3095e) && Has(b, 59, 0x78bc8d4b) &&
             Has(b, 60, 0xa43fcf15) && Has(b, 61, 0x668b2ff8) && Has(b, 62, 0xeeaba2cc) && Has(b, 63, 0x12b1edeb)
    requires Steps(INITIAL, b, 56) == V56
    ensures Steps(INITIAL, b, 64) == V64
  {
    hide Steps, Step, Has, Scheduled, INITIAL, K, V56, V57, V58, V59, V60, V61, V62, V63, V64;
    Values7();
    Constants7();
    Turn(b, 56, 0x748f82ee, 0xef57b9cd, V56, V57);
    Turn(b, 57, 0x78a5636f, 0xebe6b238, V57, V58);
    Turn(b, 58, 0x84c87814, 0x9fe3095e, V58, V59);
    Turn(b, 59, 0x8cc70208, 0x78bc8d4b, V59, V60);
    Turn(b, 60, 0x90befffa, 0xa43fcf15, V60, V61);
    Turn(b, 61, 0xa4506ceb, 0x668b2ff8, V61, V62);
    Turn(b, 62, 0xbef9a3f7, 0xeeaba2cc, V62, V63);
    Turn(b, 63, 0xc67178f2, 0x12b1edeb, V63, V64);
  }

  lemma Start(b: Chunk)
    ensures Steps(INITIAL, b, 0) == V0
  {
  }

  lemma AllSteps(b: Chunk)
    requires AbcWords(b)
    ensures Steps(INITIAL, b, 64) == V64
  {
    hide Has, Scheduled, AbcWords;
    Plain(b);
    Start(b);
    Schedule0(b);
    Schedule1(b);
    Schedule2(b);
    Schedule3(b);
    Schedule4(b);
    Schedule5(b);
    Steps0(b);
    Steps1(b);
    Steps2(b);
    Steps3(b);
    Steps4(b);
    Steps5(b);
    Steps6(b);
    Steps7(b);
  }

  lemma EightWords(h: State)
    ensures Output(h) == WordBytesOf(h[0]) + WordBytesOf(h[1]) + WordBytesOf(h[2]) + WordBytesOf(h[3]) +
                         WordBytesOf(h[4]) + WordBytesOf(h[5]) + WordBytesOf(h[6]) + WordBytesOf(h[7])
  {
    hide WordBytesOf;
    assert WordsOut(h, 2) == WordBytesOf(h[0]) + WordBytesOf(h[1]);
    assert WordsOut(h, 4) == WordsOut(h, 3) + WordBytesOf(h[3]) && WordsOut(h, 3) == WordsOut(h, 2) + WordBytesOf(h[2]);
    assert WordsOut(h, 6) == WordsOut(h, 5) + WordBytesOf(h[5]) && WordsOut(h, 5) == WordsOut(h, 4) + WordBytesOf(h[4]);
    assert WordsOut(h, 8) == WordsOut(h, 7) + WordBytesOf(h[7]) && WordsOut(h, 7) == WordsOut(h, 6) + WordBytesOf(h[6]);
  }

  lemma Sums()
    ensures Add(INITIAL[0], V64.a) == 0xba7816bf && Add(INITIAL[1], V64.b) == 0x8f01cfea
    ensures Add(INITIAL[2], V64.c) == 0x414140de && Add(INITIAL[3], V64.d) == 0x5dae2223
    ensures Add(INITIAL[4], V64.e) == 0xb00361a3 && Add(INITIAL[5], V64.f) == 0x96177a9c
    ensures Add(INITIAL[6], V64.g) == 0xb410ff61 && Add(INITIAL[7], V64.h) == 0xf20015ad
  {
  }

  lemma DigestWords()
    ensures WordBytesOf(0xba7816bf) == [0xba, 0x78, 0x16, 0xbf]
    ensures WordBytesOf(0x8f01cfea) == [0x8f, 0x01, 0xcf, 0xea]
    ensures WordBytesOf(0x414140de) == [0x41, 0x41, 0x40, 0xde]
    ensures WordBytesOf(0x5dae2223) == [0x5d, 0xae, 0x22, 0x23]
    ensures WordBytesOf(0xb00361a3) == [0xb0, 0x03, 0x61, 0xa3]
    ensures WordBytesOf(0x96177a9c) == [0x96, 0x17, 0x7a, 0x9c]
    ensures WordBytesOf(0xb410ff61) == [0xb4, 0x10, 0xff, 0x61]
    ensures WordBytesOf(0xf20015ad) == [0xf2, 0x00, 0x15, 0xad]
  {
  }

  lemma AbcState()
    ensures |Padded(ABC)| == 64
    ensures Absorbed(INITIAL, Padded(ABC), 1) ==
            [0xba7816bf, 0x8f01cfea, 0x414140de, 0x5dae2223,
             0xb00361a3, 0x96177a9c, 0xb410ff61, 0xf20015ad]
  {
    hide Steps, Padded, AbcWords, Add, V64, INITIAL;
    AbcPadded();
    var p := Padded(ABC);
    assert p[64 * 0..64 * 1] == p;
    Start(p);
    AllSteps(p);
    Sums();
    assert Absorbed(INITIAL, p, 0) == INITIAL;
    assert Absorbed(INITIAL, p, 1) == Compress(INITIAL, p);
  }

  /** SHA-256("abc") */
  lemma AbcDigest()
    ensures Sha(ABC) == [
              0xba, 0x78, 0x16, 0xbf, 0x8f, 0x01, 0xcf, 0xea,
              0x41, 0x41, 0x40, 0xde, 0x5d, 0xae, 0x22, 0x23,
              0xb0, 0x03, 0x61, 0xa3, 0x96, 0x17, 0x7a, 0x9c,
              0xb4, 0x10, 0xff, 0x61, 0xf2, 0x00, 0x15, 0xad]
  {
    hide Padded, WordBytesOf, Absorbed, Output, INITIAL;
    AbcState();
    DigestWords();
    EightWords(Absorbed(INITIAL, Padded(ABC), 1));
  }
}
