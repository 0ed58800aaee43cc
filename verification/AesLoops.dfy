/** The kernel's AES-128 loops: key expansion and the two block ciphers over sixteen bytes
    of state, proved to compute the key schedule of section 5.2 and the ciphers of
    sections 5.1 and 5.3 of FIPS 197. */
module AesLoops {
  import opened Bytes
  import opened AesField
  import opened Aes

  // ---------- key expansion ----------

  type KeyColumn = w: seq<Byte> | |w| == 4 witness seq(4, _ => 0 as bv8)

  /** The round constant of section 5.2: x to the power j - 1. */
  function RoundConstant(j: nat): Byte
    requires j > 0
  {
    if j == 1 then 1 else Xtime(RoundConstant(j - 1))
  }

  /** AES_RCON */
  const RCON: seq<Byte> := [0x01, 0x02, 0x04, 0x08, 0x10, 0x20, 0x40, 0x80, 0x1b, 0x36]

  lemma {:induction false} RconMeaning(j: nat)
    requires j < 10
    ensures RCON[j] == RoundConstant(j + 1)
  {
    if j > 0 {
      RconMeaning(j - 1);
    }
  }

  /** RotWord, SubWord and the round constant. */
  function Stirred(w: KeyColumn, c: Byte): KeyColumn {
    [Xor(Sbox(w[1]), c), Sbox(w[2]), Sbox(w[3]), Sbox(w[0])]
  }

  function XorColumns(u: KeyColumn, v: KeyColumn): KeyColumn {
    [Xor(u[0], v[0]), Xor(u[1], v[1]), Xor(u[2], v[2]), Xor(u[3], v[3])]
  }

  /** Word i of the expanded key. */
  function KeyWord(key: Block, i: nat): KeyColumn {
    if i < 4 then key[4 * i..4 * i + 4]
    else XorColumns(KeyWord(key, i - 4), Temp(KeyWord(key, i - 1), i))
  }

  /** What word i adds to word i - 4, given word i - 1. */
  function Temp(before: KeyColumn, i: nat): KeyColumn
    requires i >= 4
  {
    if i % 4 == 0 then Stirred(before, RoundConstant(i / 4)) else before
  }

  function KeySchedule(key: Block): Schedule {
    seq(11, n requires 0 <= n < 11 =>
      KeyWord(key, 4 * n) + KeyWord(key, 4 * n + 1) + KeyWord(key, 4 * n + 2) + KeyWord(key, 4 * n + 3))
  }

  /** The first words of rk are words of the expanded key. */
  predicate Expanded(key: Block, rk: seq<Byte>, words: nat)
    requires |rk| == 176 && words <= 44
  {
    forall w, k :: 0 <= w < words && 0 <= k < 4 ==> rk[4 * w + k] == KeyWord(key, w)[k]
  }

  lemma ExpandedByOne(key: Block, before: seq<Byte>, rk: seq<Byte>, w: nat, t: KeyColumn)
    requires |rk| == |before| == 176 && 4 <= w < 44
    requires Expanded(key, before, w)
    requires forall j :: 0 <= j < 4 * w ==> rk[j] == before[j]
    requires t == Temp(KeyWord(key, w - 1), w)
    requires forall j :: 0 <= j < 4 ==> rk[4 * w + j] == Xor(before[4 * w + j - 16], t[j])
    ensures Expanded(key, rk, w + 1)
  {
    hide Temp, Xor, KeyWord;
    forall v, k | 0 <= v < w + 1 && 0 <= k < 4 ensures rk[4 * v + k] == KeyWord(key, v)[k] {
      if v < w {
        assert before[4 * v + k] == KeyWord(key, v)[k];
      } else {
        assert before[4 * (w - 4) + k] == KeyWord(key, w - 4)[k];
        NextWord(key, w, k);
      }
    }
  }

  lemma NextWord(key: Block, w: nat, k: nat)
    requires w >= 4 && k < 4
    ensures KeyWord(key, w)[k] == Xor(KeyWord(key, w - 4)[k], Temp(KeyWord(key, w - 1), w)[k])
  {
    hide Temp, Xor;
  }

  /** aes_key_expand */
  method ExpandKey(key: Block) returns (rk: seq<Byte>)
    ensures |rk| == 176 && Expanded(key, rk, 44)
  {
    hide Sbox, Xor, Xtime, RoundConstant, Stirred, Expanded, KeyWord, Temp, Stir;
    rk := key + seq(160, _ => 0);
    var i := 16;
    var rci := 0;
    FirstColumns(key, rk);
    ghost var w := 4;
    ghost var turn := 1;
    ghost var phase := 0;
    while i < 176
      invariant |rk| == 176 && i == 4 * w && 16 <= i <= 176
      invariant w == 4 * turn + phase && 0 <= phase < 4 && rci == (if phase == 0 then turn - 1 else turn)
      invariant Expanded(key, rk, w)
      decreases 44 - w
    {
      ghost var before := rk;
      var t: KeyColumn := [rk[i - 4], rk[i - 3], rk[i - 2], rk[i - 1]];
      LastColumn(key, rk, w, t);
      if i % 16 == 0 {
        t := Stir(t, rci);
        rci := rci + 1;
      }
      TempIs(KeyWord(key, w - 1), turn, phase, t);
      for k := 0 to 4
        invariant i == 4 * w + k
        invariant |rk| == 176
        invariant forall j :: 0 <= j < 4 * w ==> rk[j] == before[j]
        invariant forall j :: 0 <= j < k ==> rk[4 * w + j] == Xor(before[4 * w + j - 16], t[j])
      {
        rk := rk[i := Xor(rk[i - 16], t[k])];
        i := i + 1;
      }
      ExpandedByOne(key, before, rk, w, t);
      w := w + 1;
      if phase == 3 {
        turn, phase := turn + 1, 0;
      } else {
        phase := phase + 1;
      }
    }
  }

  lemma LastColumn(key: Block, rk: seq<Byte>, w: nat, t: KeyColumn)
    requires |rk| == 176 && 4 <= w < 44 && Expanded(key, rk, w)
    requires t == [rk[4 * w - 4], rk[4 * w - 3], rk[4 * w - 2], rk[4 * w - 1]]
    ensures t == KeyWord(key, w - 1)
  {
    hide KeyWord;
    var u := KeyWord(key, w - 1);
    assert rk[4 * (w - 1) + 0] == u[0];
    assert rk[4 * (w - 1) + 1] == u[1];
    assert rk[4 * (w - 1) + 2] == u[2];
    assert rk[4 * (w - 1) + 3] == u[3];
  }

  /** RotWord, SubWord and the table entry, as the code writes them. */
  function Stir(t: KeyColumn, rci: nat): KeyColumn
    requires rci < 10
  {
    [Xor(Sbox(t[1]), RCON[rci]), Sbox(t[2]), Sbox(t[3]), Sbox(t[0])]
  }

  lemma TempIs(u: KeyColumn, turn: nat, phase: nat, t: KeyColumn)
    requires 1 <= turn <= 10 && phase < 4
    requires t == if phase == 0 then Stir(u, turn - 1) else u
    ensures t == Temp(u, 4 * turn + phase)
  {
    hide Sbox, RoundConstant, Xor, RCON;
    assert (4 * turn + phase) % 4 == phase && (4 * turn + phase) / 4 == turn;
    RconMeaning(turn - 1);
  }

  lemma FirstColumns(key: Block, rk: seq<Byte>)
    requires |rk| == 176 && rk[..16] == key
    ensures Expanded(key, rk, 4)
  {
    forall w, k | 0 <= w < 4 && 0 <= k < 4 ensures rk[4 * w + k] == KeyWord(key, w)[k] {
      assert rk[4 * w + k] == rk[..16][4 * w + k];
    }
  }

  lemma RoundKeyAt(key: Block, rk: seq<Byte>, n: nat)
    requires |rk| == 176 && Expanded(key, rk, 44) && n <= 10
    ensures rk[16 * n..16 * n + 16] == KeySchedule(key)[n]
  {
    hide KeyWord, Expanded;
    ColumnAt(key, rk, 4 * n);
    ColumnAt(key, rk, 4 * n + 1);
    ColumnAt(key, rk, 4 * n + 2);
    ColumnAt(key, rk, 4 * n + 3);
    FourColumns(rk, 16 * n);
  }

  lemma FourColumns(rk: seq<Byte>, o: nat)
    requires o + 16 <= |rk|
    ensures rk[o..o + 16] == rk[o..o + 4] + rk[o + 4..o + 8] + rk[o + 8..o + 12] + rk[o + 12..o + 16]
  {
    TwoParts(rk, o, o + 4, o + 8);
    TwoParts(rk, o, o + 8, o + 12);
    TwoParts(rk, o, o + 12, o + 16);
  }

  lemma TwoParts(s: seq<Byte>, lo: nat, mid: nat, hi: nat)
    requires lo <= mid <= hi <= |s|
    ensures s[lo..hi] == s[lo..mid] + s[mid..hi]
  {
  }

  lemma ColumnAt(key: Block, rk: seq<Byte>, w: nat)
    requires |rk| == 176 && Expanded(key, rk, 44) && w < 44
    ensures rk[4 * w..4 * w + 4] == KeyWord(key, w)
  {
    hide KeyWord;
    forall k | 0 <= k < 4 ensures rk[4 * w..4 * w + 4][k] == KeyWord(key, w)[k] {
      assert rk[4 * w + k] == KeyWord(key, w)[k];
    }
  }

  // ---------- the loops over the state ----------

  method Substitute(s0: Block) returns (s: Block)
    ensures s == SubBytes(s0)
  {
    hide Sbox;
    s := s0;
    for i := 0 to 16
      invariant forall j :: 0 <= j < i ==> s[j] == Sbox(s0[j])
      invariant forall j :: i <= j < 16 ==> s[j] == s0[j]
    {
      s := s[i := Sbox(s[i])];
    }
  }

  method InvSubstitute(s0: Block) returns (s: Block)
    ensures s == InvSubBytes(s0)
  {
    hide InvSbox;
    s := s0;
    for i := 0 to 16
      invariant forall j :: 0 <= j < i ==> s[j] == InvSbox(s0[j])
      invariant forall j :: i <= j < 16 ==> s[j] == s0[j]
    {
      s := s[i := InvSbox(s[i])];
    }
  }

  method AddKey(s0: Block, rk: seq<Byte>, off: nat) returns (s: Block)
    requires off + 16 <= |rk|
    ensures s == AddRoundKey(s0, rk[off..off + 16])
  {
    hide Xor;
    s := s0;
    for i := 0 to 16
      invariant forall j :: 0 <= j < i ==> s[j] == Xor(s0[j], rk[off + j])
      invariant forall j :: i <= j < 16 ==> s[j] == s0[j]
    {
      s := s[i := Xor(s[i], rk[off + i])];
    }
  }

  method Shift(s: Block) returns (t: Block)
    ensures t == ShiftRows(s)
  {
    t := s;
    t := t[1 := s[5]]; t := t[5 := s[9]]; t := t[9 := s[13]]; t := t[13 := s[1]];
    t := t[2 := s[10]]; t := t[10 := s[2]]; t := t[6 := s[14]]; t := t[14 := s[6]];
    t := t[3 := s[15]]; t := t[15 := s[11]]; t := t[11 := s[7]]; t := t[7 := s[3]];
  }

  method InvShift(s: Block) returns (t: Block)
    ensures t == InvShiftRows(s)
  {
    t := s;
    t := t[1 := s[13]]; t := t[13 := s[9]]; t := t[9 := s[5]]; t := t[5 := s[1]];
    t := t[2 := s[10]]; t := t[10 := s[2]]; t := t[6 := s[14]]; t := t[14 := s[6]];
    t := t[3 := s[7]]; t := t[7 := s[11]]; t := t[11 := s[15]]; t := t[15 := s[3]];
  }

  /** Column c of a mixed state, as the code writes its four sums. */
  function MixSums(a0: Byte, a1: Byte, a2: Byte, a3: Byte): (r: seq<Byte>)
    ensures |r| == 4
  {
    [Sum4(Mul2(a0), Mul3(a1), a2, a3), Sum4(a0, Mul2(a1), Mul3(a2), a3),
     Sum4(a0, a1, Mul2(a2), Mul3(a3)), Sum4(Mul3(a0), a1, a2, Mul2(a3))]
  }

  function InvMixSums(a0: Byte, a1: Byte, a2: Byte, a3: Byte): (r: seq<Byte>)
    ensures |r| == 4
  {
    [Sum4(Mul14(a0), Mul11(a1), Mul13(a2), Mul9(a3)), Sum4(Mul9(a0), Mul14(a1), Mul11(a2), Mul13(a3)),
     Sum4(Mul13(a0), Mul9(a1), Mul14(a2), Mul11(a3)), Sum4(Mul11(a0), Mul13(a1), Mul9(a2), Mul14(a3))]
  }

  lemma MixSumsMeaning(a0: Byte, a1: Byte, a2: Byte, a3: Byte)
    ensures MixSums(a0, a1, a2, a3) == MixColumn(a0, a1, a2, a3)
  {
    hide Mul2, Mul3, Xor4, Sum4;
    Xor4Sum(Mul2(a0), Mul3(a1), a2, a3);
    Xor4Sum(a0, Mul2(a1), Mul3(a2), a3);
    Rotated3(a0, Mul2(a1), Mul3(a2), a3);
    Xor4Sum(a0, a1, Mul2(a2), Mul3(a3));
    Rotated2(a0, a1, Mul2(a2), Mul3(a3));
    Xor4Sum(Mul3(a0), a1, a2, Mul2(a3));
    Rotated(Mul3(a0), a1, a2, Mul2(a3));
  }

  lemma InvMixSumsMeaning(a0: Byte, a1: Byte, a2: Byte, a3: Byte)
    ensures InvMixSums(a0, a1, a2, a3) == InvMixColumn(a0, a1, a2, a3)
  {
    hide Mul9, Mul11, Mul13, Mul14, Xor4, Sum4;
    Xor4Sum(Mul14(a0), Mul11(a1), Mul13(a2), Mul9(a3));
    Xor4Sum(Mul9(a0), Mul14(a1), Mul11(a2), Mul13(a3));
    Rotated3(Mul9(a0), Mul14(a1), Mul11(a2), Mul13(a3));
    Xor4Sum(Mul13(a0), Mul9(a1), Mul14(a2), Mul11(a3));
    Rotated2(Mul13(a0), Mul9(a1), Mul14(a2), Mul11(a3));
    Xor4Sum(Mul11(a0), Mul13(a1), Mul9(a2), Mul14(a3));
    Rotated(Mul11(a0), Mul13(a1), Mul9(a2), Mul14(a3));
  }

  function Column(s: Block, c: nat): KeyColumn
    requires c < 4
  {
    [s[4 * c], s[4 * c + 1], s[4 * c + 2], s[4 * c + 3]]
  }

  function PutColumn(s: Block, c: nat, m: KeyColumn): (r: Block)
    requires c < 4
    ensures Column(r, c) == m
    ensures forall d :: 0 <= d < 4 && d != c ==> Column(r, d) == Column(s, d)
  {
    s[4 * c := m[0]][4 * c + 1 := m[1]][4 * c + 2 := m[2]][4 * c + 3 := m[3]]
  }

  function Mixed(a: KeyColumn): KeyColumn { MixColumn(a[0], a[1], a[2], a[3]) }

  function InvMixed(a: KeyColumn): KeyColumn { InvMixColumn(a[0], a[1], a[2], a[3]) }

  lemma ColumnsMake(s: Block)
    ensures s == Column(s, 0) + Column(s, 1) + Column(s, 2) + Column(s, 3)
  {
  }

  lemma MixColumnsAre(s0: Block, s: Block)
    requires forall d :: 0 <= d < 4 ==> Column(s, d) == Mixed(Column(s0, d))
    ensures s == MixColumns(s0)
  {
    hide MixColumn;
    ColumnsMake(s);
  }

  lemma InvMixColumnsAre(s0: Block, s: Block)
    requires forall d :: 0 <= d < 4 ==> Column(s, d) == InvMixed(Column(s0, d))
    ensures s == InvMixColumns(s0)
  {
    hide InvMixColumn;
    ColumnsMake(s);
  }

  method Mix(s0: Block) returns (s: Block)
    ensures s == MixColumns(s0)
  {
    hide MixColumn, MixSums, Column, PutColumn;
    s := s0;
    for c := 0 to 4
      invariant forall d :: 0 <= d < c ==> Column(s, d) == Mixed(Column(s0, d))
      invariant forall d :: c <= d < 4 ==> Column(s, d) == Column(s0, d)
    {
      var a := Column(s, c);
      s := PutColumn(s, c, MixSums(a[0], a[1], a[2], a[3]));
      MixSumsMeaning(a[0], a[1], a[2], a[3]);
    }
    MixColumnsAre(s0, s);
  }

  method InvMix(s0: Block) returns (s: Block)
    ensures s == InvMixColumns(s0)
  {
    hide InvMixColumn, InvMixSums, Column, PutColumn;
    s := s0;
    for c := 0 to 4
      invariant forall d :: 0 <= d < c ==> Column(s, d) == InvMixed(Column(s0, d))
      invariant forall d :: c <= d < 4 ==> Column(s, d) == Column(s0, d)
    {
      var a := Column(s, c);
      s := PutColumn(s, c, InvMixSums(a[0], a[1], a[2], a[3]));
      InvMixSumsMeaning(a[0], a[1], a[2], a[3]);
    }
    InvMixColumnsAre(s0, s);
  }

  // ---------- the block ciphers ----------

  function Encrypt(key: Block, pt: Block): Block { Cipher(KeySchedule(key), pt) }

  function Decrypt(key: Block, ct: Block): Block { InvCipher(KeySchedule(key), ct) }

  /** For every key and block, decryption undoes encryption. */
  lemma DecryptEncrypt(key: Block, pt: Block)
    ensures Decrypt(key, Encrypt(key, pt)) == pt
  {
    hide Cipher, InvCipher, KeySchedule;
    CipherInverse(KeySchedule(key), pt);
  }

  /** aes128_encrypt_block */
  method EncryptBlock(key: Block, pt: Block) returns (ct: Block)
    ensures ct == Encrypt(key, pt)
    ensures Decrypt(key, ct) == pt
  {
    hide Expanded, KeySchedule, SubBytes, ShiftRows, MixColumns, AddRoundKey, Decrypt;
    var rk := ExpandKey(key);
    ghost var keys := KeySchedule(key);
    RoundKeyAt(key, rk, 0);
    var s := AddKey(pt, rk, 0);
    for round := 1 to 11
      invariant s == Rounds(keys, pt, round - 1)
    {
      s := Substitute(s);
      s := Shift(s);
      if round != 10 {
        s := Mix(s);
      }
      RoundKeyAt(key, rk, round);
      s := AddKey(s, rk, round * 16);
    }
    ct := s;
    DecryptEncrypt(key, pt);
  }

  /** aes128_decrypt_block */
  method DecryptBlock(key: Block, ct: Block) returns (pt: Block)
    ensures pt == Decrypt(key, ct)
  {
    hide Expanded, KeySchedule, InvSubBytes, InvShiftRows, InvMixColumns, AddRoundKey;
    var rk := ExpandKey(key);
    ghost var keys := KeySchedule(key);
    RoundKeyAt(key, rk, 10);
    var s := AddKey(ct, rk, 160);
    for round := 10 downto 0
      invariant s == InvRounds(keys, ct, 10 - round)
    {
      s := InvShift(s);
      s := InvSubstitute(s);
      RoundKeyAt(key, rk, round);
      s := AddKey(s, rk, round * 16);
      if round != 0 {
        s := InvMix(s);
      }
    }
    pt := s;
  }
}
