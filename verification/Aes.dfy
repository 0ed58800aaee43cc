/** AES-128 on one block: the transformations of sections 5.1 to 5.3 of FIPS 197 as
    functions, the kernel's loops as methods that compute them, and the theorem that
    the inverse cipher undoes the cipher. */
module Aes {
  import opened Bytes
  import opened AesField

  /** Sixteen bytes; byte r + 4c is row r of column c. */
  type Block = s: seq<Byte> | |s| == 16 witness seq(16, _ => 0 as bv8)

  // ---------- the transformations ----------

  function SubBytes(s: Block): Block {
    seq(16, i requires 0 <= i < 16 => Sbox(s[i]))
  }

  function InvSubBytes(s: Block): Block {
    seq(16, i requires 0 <= i < 16 => InvSbox(s[i]))
  }

  /** Row r turns left by r columns. */
  function ShiftRows(s: Block): Block {
    [s[0], s[5], s[10], s[15],
     s[4], s[9], s[14], s[3],
     s[8], s[13], s[2], s[7],
     s[12], s[1], s[6], s[11]]
  }

  function InvShiftRows(s: Block): Block {
    [s[0], s[13], s[10], s[7],
     s[4], s[1], s[14], s[11],
     s[8], s[5], s[2], s[15],
     s[12], s[9], s[6], s[3]]
  }

  /** The definition of section 5.1.2: row r of column c comes from column c + r. */
  lemma ShiftRowsMeaning(s: Block, r: nat, c: nat)
    requires r < 4 && c < 4
    ensures ShiftRows(s)[r + 4 * c] == s[r + 4 * ((c + r) % 4)]
  {
    hide Pick;
    assert c == 0 || c == 1 || c == 2 || c == 3;
    assert r == 0 || r == 1 || r == 2 || r == 3;
  }

  function MixColumn(a: Byte, b: Byte, c: Byte, d: Byte): (r: seq<Byte>)
    ensures |r| == 4
  {
    [MixByte(a, b, c, d), MixByte(b, c, d, a), MixByte(c, d, a, b), MixByte(d, a, b, c)]
  }

  function InvMixColumn(a: Byte, b: Byte, c: Byte, d: Byte): (r: seq<Byte>)
    ensures |r| == 4
  {
    [InvMixByte(a, b, c, d), InvMixByte(b, c, d, a), InvMixByte(c, d, a, b), InvMixByte(d, a, b, c)]
  }

  function MixColumns(s: Block): Block {
    MixColumn(s[0], s[1], s[2], s[3]) + MixColumn(s[4], s[5], s[6], s[7]) +
    MixColumn(s[8], s[9], s[10], s[11]) + MixColumn(s[12], s[13], s[14], s[15])
  }

  function InvMixColumns(s: Block): Block {
    InvMixColumn(s[0], s[1], s[2], s[3]) + InvMixColumn(s[4], s[5], s[6], s[7]) +
    InvMixColumn(s[8], s[9], s[10], s[11]) + InvMixColumn(s[12], s[13], s[14], s[15])
  }

  function AddRoundKey(s: Block, k: Block): Block {
    seq(16, i requires 0 <= i < 16 => Xor(s[i], k[i]))
  }

  // ---------- each transformation has an inverse ----------

  lemma SubBytesInverse(s: Block)
    ensures InvSubBytes(SubBytes(s)) == s
  {
    hide Sbox, InvSbox;
    forall i | 0 <= i < 16 ensures InvSubBytes(SubBytes(s))[i] == s[i] {
      SboxInverse(s[i]);
    }
  }

  lemma ShiftRowsInverse(s: Block)
    ensures InvShiftRows(ShiftRows(s)) == s
  {
  }

  lemma MixColumnInverse(a: Byte, b: Byte, c: Byte, d: Byte)
    ensures var m := MixColumn(a, b, c, d);
            InvMixColumn(m[0], m[1], m[2], m[3]) == [a, b, c, d]
  {
    hide MixByte, InvMixByte;
    ColumnInverse(a, b, c, d);
    ColumnInverse(b, c, d, a);
    ColumnInverse(c, d, a, b);
    ColumnInverse(d, a, b, c);
  }

  lemma MixColumnsInverse(s: Block)
    ensures InvMixColumns(MixColumns(s)) == s
  {
    hide MixColumn, InvMixColumn;
    MixColumnInverse(s[0], s[1], s[2], s[3]);
    MixColumnInverse(s[4], s[5], s[6], s[7]);
    MixColumnInverse(s[8], s[9], s[10], s[11]);
    MixColumnInverse(s[12], s[13], s[14], s[15]);
  }

  lemma AddRoundKeyInverse(s: Block, k: Block)
    ensures AddRoundKey(AddRoundKey(s, k), k) == s
  {
    hide Xor;
    forall i | 0 <= i < 16 ensures AddRoundKey(AddRoundKey(s, k), k)[i] == s[i] {
      XorTwice(s[i], k[i]);
    }
  }

  lemma XorTwice(a: Byte, b: Byte)
    ensures Xor(Xor(a, b), b) == a
  {
  }

  // ---------- the cipher ----------

  /** Eleven round keys. */
  type Schedule = k: seq<Block> | |k| == 11 witness seq(11, _ => seq(16, _ => 0 as bv8))

  /** One round of the cipher; the last one has no MixColumns. */
  function Round(s: Block, k: Block, last: bool): Block {
    var t := ShiftRows(SubBytes(s));
    AddRoundKey(if last then t else MixColumns(t), k)
  }

  /** One round of the inverse cipher, in the order of section 5.3: it undoes the round
      with the same flag once that round's key has been taken off. */
  function InvRound(s: Block, k: Block, first: bool): Block {
    var t := AddRoundKey(InvSubBytes(InvShiftRows(s)), k);
    if first then t else InvMixColumns(t)
  }

  /** The state after rounds 1 to n. */
  function Rounds(rk: Schedule, pt: Block, n: nat): Block
    requires n <= 10
  {
    if n == 0 then AddRoundKey(pt, rk[0]) else Round(Rounds(rk, pt, n - 1), rk[n], n == 10)
  }

  function Cipher(rk: Schedule, pt: Block): Block {
    Rounds(rk, pt, 10)
  }

  /** The state of the inverse cipher after n of its rounds; round n adds key 10 - n. */
  function InvRounds(rk: Schedule, ct: Block, n: nat): Block
    requires n <= 10
  {
    if n == 0 then AddRoundKey(ct, rk[10]) else InvRound(InvRounds(rk, ct, n - 1), rk[10 - n], n == 10)
  }

  function InvCipher(rk: Schedule, ct: Block): Block {
    InvRounds(rk, ct, 10)
  }

  /** The state entering the key addition of round n: what is left of it once the key is off. */
  function Unkeyed(rk: Schedule, pt: Block, n: nat): Block
    requires n <= 10
  {
    AddRoundKey(Rounds(rk, pt, n), rk[n])
  }

  lemma UnkeyedIs(rk: Schedule, pt: Block, n: nat)
    requires 0 < n <= 10
    ensures var t := ShiftRows(SubBytes(Rounds(rk, pt, n - 1)));
            Unkeyed(rk, pt, n) == if n == 10 then t else MixColumns(t)
  {
    hide SubBytes, ShiftRows, MixColumns, AddRoundKey;
    var t := ShiftRows(SubBytes(Rounds(rk, pt, n - 1)));
    AddRoundKeyInverse(if n == 10 then t else MixColumns(t), rk[n]);
  }

  /** After n inverse rounds the state is, up to a MixColumns, the cipher's state before
      the last n rounds. */
  lemma {:induction false} Unwinding(rk: Schedule, pt: Block, n: nat)
    requires n < 10
    ensures var s := InvRounds(rk, Cipher(rk, pt), n);
            s == ShiftRows(SubBytes(Rounds(rk, pt, 9 - n)))
  {
    hide SubBytes, ShiftRows, MixColumns, AddRoundKey, InvSubBytes, InvShiftRows, InvMixColumns;
    if n == 0 {
      UnkeyedIs(rk, pt, 10);
    } else {
      Unwinding(rk, pt, n - 1);
      var r := Rounds(rk, pt, 10 - n);
      ShiftRowsInverse(SubBytes(r));
      SubBytesInverse(r);
      UnkeyedIs(rk, pt, 10 - n);
      MixColumnsInverse(ShiftRows(SubBytes(Rounds(rk, pt, 9 - n))));
    }
  }

  /** The inverse cipher undoes the cipher, for every block and every eleven round keys. */
  lemma CipherInverse(rk: Schedule, pt: Block)
    ensures InvCipher(rk, Cipher(rk, pt)) == pt
  {
    hide SubBytes, ShiftRows, MixColumns, AddRoundKey, InvSubBytes, InvShiftRows, InvMixColumns;
    Unwinding(rk, pt, 9);
    var r := Rounds(rk, pt, 0);
    ShiftRowsInverse(SubBytes(r));
    SubBytesInverse(r);
    AddRoundKeyInverse(pt, rk[0]);
  }
}
