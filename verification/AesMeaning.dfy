/** Encryption byte by byte, as sections 5.1 and 5.2 of FIPS 197 define it: the words of the key
    schedule and the states of the cipher as the only sequences that meet their equations, over
    the product of the field and without the functions of the other modules. */
module AesMeaning {
  import opened Bytes
  import opened AesField
  import opened Aes
  import opened AesLoops
  import AesStandard

  /** x to the power j in the field. */
  function Power(j: nat): Byte {
    if j == 0 then 1 else AesStandard.Times(Power(j - 1), 2)
  }

  lemma {:induction false} PowerIsConstant(j: nat)
    ensures Power(j) == RoundConstant(j + 1)
  {
    hide AesStandard.Times, Xtime;
    if j > 0 {
      PowerIsConstant(j - 1);
      AesStandard.XtimeIsProduct(Power(j - 1));
    }
  }

  /** Row r of column c. */
  function At(s: Block, r: nat, c: nat): Byte
    requires r < 4 && c < 4
  {
    s[r + 4 * c]
  }

  lemma SameBytes(s: Block, t: Block)
    requires forall r, c :: 0 <= r < 4 && 0 <= c < 4 ==> At(s, r, c) == At(t, r, c)
    ensures s == t
  {
    forall i | 0 <= i < 16 ensures s[i] == t[i] {
      assert At(s, i % 4, i / 4) == At(t, i % 4, i / 4);
    }
  }

  // ---------- the equations ----------

  /** Byte r of word i by the words before: every fourth word adds the one before it turned by a
      byte, substituted, with a power of x on its first byte. */
  ghost predicate KeyByte(ks: seq<KeyColumn>, i: nat, r: nat)
    requires 4 <= i < |ks| && r < 4
  {
    ks[i][r] == Xor(ks[i - 4][r],
                    if i % 4 != 0 then ks[i - 1][r]
                    else if r == 0 then Xor(Sbox(ks[i - 1][1]), Power(i / 4 - 1))
                    else Sbox(ks[i - 1][(r + 1) % 4]))
  }

  ghost predicate KeyWords(key: Block, ks: seq<KeyColumn>) {
    && |ks| == 44
    && (forall i, r :: 0 <= i < 4 && 0 <= r < 4 ==> ks[i][r] == At(key, r, i))
    && forall i, r :: 4 <= i < 44 && 0 <= r < 4 ==> KeyByte(ks, i, r)
  }

  /** Byte r of column c once the bytes are substituted and the rows turned. */
  function Turned(s: Block, r: nat, c: nat): Byte
    requires r < 4 && c < 4
  {
    Sbox(At(s, r, (c + r) % 4))
  }

  /** The sum 2a + 3b + d + e in the field, a row of the matrix of section 5.1.3. */
  function Row(a: Byte, b: Byte, d: Byte, e: Byte): Byte {
    Xor4(AesStandard.Times(a, 2), AesStandard.Times(b, 3), d, e)
  }

  /** What a round makes of row r of column c. */
  function NewByte(s: Block, k: Byte, last: bool, r: nat, c: nat): Byte
    requires r < 4 && c < 4
  {
    Xor(k, if last then Turned(s, r, c)
           else Row(Turned(s, r, c), Turned(s, (r + 1) % 4, c), Turned(s, (r + 2) % 4, c), Turned(s, (r + 3) % 4, c)))
  }

  ghost predicate FirstState(ks: seq<KeyColumn>, pt: Block, s: Block)
    requires |ks| == 44
  {
    forall r, c :: 0 <= r < 4 && 0 <= c < 4 ==> At(s, r, c) == Xor(At(pt, r, c), ks[c][r])
  }

  ghost predicate NextState(ks: seq<KeyColumn>, n: nat, s: Block, t: Block)
    requires |ks| == 44 && 1 <= n <= 10
  {
    forall r, c :: 0 <= r < 4 && 0 <= c < 4 ==> At(t, r, c) == NewByte(s, ks[4 * n + c][r], n == 10, r, c)
  }

  ghost predicate States(ks: seq<KeyColumn>, pt: Block, ss: seq<Block>)
    requires |ks| == 44
  {
    && |ss| == 11 && FirstState(ks, pt, ss[0])
    && forall n :: 1 <= n <= 10 ==> NextState(ks, n, ss[n - 1], ss[n])
  }

  /** There are a key schedule and states that meet the equations and end in ct. */
  ghost predicate Standard(key: Block, pt: Block, ct: Block) {
    exists ks: seq<KeyColumn>, ss: seq<Block> :: KeyWords(key, ks) && States(ks, pt, ss) && ss[10] == ct
  }

  // ---------- the key schedule meets its equations ----------

  lemma KeyByteIs(key: Block, i: nat, r: nat)
    requires i >= 4 && r < 4
    ensures var before := KeyWord(key, i - 1);
            KeyWord(key, i)[r] ==
            Xor(KeyWord(key, i - 4)[r],
                if i % 4 != 0 then before[r]
                else if r == 0 then Xor(Sbox(before[1]), Power(i / 4 - 1))
                else Sbox(before[(r + 1) % 4]))
  {
    hide Sbox, KeyWord, RoundConstant, Power, Temp, Xor;
    NextWord(key, i, r);
    TempByte(KeyWord(key, i - 1), i, r);
  }

  lemma TempByte(before: KeyColumn, i: nat, r: nat)
    requires i >= 4 && r < 4
    ensures Temp(before, i)[r] ==
            if i % 4 != 0 then before[r]
            else if r == 0 then Xor(Sbox(before[1]), Power(i / 4 - 1))
            else Sbox(before[(r + 1) % 4])
  {
    hide Sbox, RoundConstant, Power, Xor;
    assert r == 0 || r == 1 || r == 2 || r == 3;
    if i % 4 == 0 {
      PowerIsConstant(i / 4 - 1);
    }
  }

  lemma {:induction false} WordsDetermined(key: Block, ks: seq<KeyColumn>, i: nat)
    requires KeyWords(key, ks) && i < 44
    ensures ks[i] == KeyWord(key, i)
  {
    hide Sbox, Power, Xor, KeyWord;
    if i < 4 {
      FirstWords(key, i);
      assert forall r :: 0 <= r < 4 ==> ks[i][r] == KeyWord(key, i)[r];
    } else {
      WordsDetermined(key, ks, i - 1);
      WordsDetermined(key, ks, i - 4);
      forall r | 0 <= r < 4 ensures ks[i][r] == KeyWord(key, i)[r] {
        assert KeyByte(ks, i, r);
        KeyByteIs(key, i, r);
      }
    }
  }

  lemma FirstWords(key: Block, i: nat)
    requires i < 4
    ensures forall r :: 0 <= r < 4 ==> KeyWord(key, i)[r] == At(key, r, i)
  {
  }

  lemma WordsMeet(key: Block, ks: seq<KeyColumn>)
    requires |ks| == 44 && forall i :: 0 <= i < 44 ==> ks[i] == KeyWord(key, i)
    ensures KeyWords(key, ks)
  {
    hide Sbox, Power, Xor, KeyWord;
    forall i, r | 0 <= i < 4 && 0 <= r < 4 ensures ks[i][r] == At(key, r, i) {
      FirstWords(key, i);
    }
    forall i, r | 4 <= i < 44 && 0 <= r < 4 ensures KeyByte(ks, i, r) {
      KeyByteIs(key, i, r);
    }
  }

  // ---------- the rounds meet theirs ----------

  lemma RowIs(a: Byte, b: Byte, d: Byte, e: Byte)
    ensures MixByte(a, b, d, e) == Row(a, b, d, e)
  {
    hide Xor4;
    TripleIs(b);
  }

  lemma TripleIs(a: Byte)
    ensures Mul2(a) == AesStandard.Times(a, 2) && Mul3(a) == AesStandard.Times(a, 3)
  {
  }

  lemma MixedByte(t: Block, r: nat, c: nat)
    requires r < 4 && c < 4
    ensures At(MixColumns(t), r, c) == Row(At(t, r, c), At(t, (r + 1) % 4, c), At(t, (r + 2) % 4, c),
                                           At(t, (r + 3) % 4, c))
  {
    hide MixColumn, Row, MixColumns, MixByte;
    RowIs(At(t, r, c), At(t, (r + 1) % 4, c), At(t, (r + 2) % 4, c), At(t, (r + 3) % 4, c));
    ColumnByte(t, r, c);
    ColumnIs(At(t, 0, c), At(t, 1, c), At(t, 2, c), At(t, 3, c), r);
  }

  lemma ColumnIs(a: Byte, b: Byte, d: Byte, e: Byte, r: nat)
    requires r < 4
    ensures MixColumn(a, b, d, e)[r] ==
            if r == 0 then MixByte(a, b, d, e) else if r == 1 then MixByte(b, d, e, a)
            else if r == 2 then MixByte(d, e, a, b) else MixByte(e, a, b, d)
  {
    hide MixByte;
  }

  lemma ColumnByte(t: Block, r: nat, c: nat)
    requires r < 4 && c < 4
    ensures At(MixColumns(t), r, c) == MixColumn(At(t, 0, c), At(t, 1, c), At(t, 2, c), At(t, 3, c))[r]
  {
    hide MixColumn;
    assert c == 0 || c == 1 || c == 2 || c == 3;
  }

  lemma TurnedIs(s: Block, r: nat, c: nat)
    requires r < 4 && c < 4
    ensures At(ShiftRows(SubBytes(s)), r, c) == Turned(s, r, c)
  {
    hide Sbox, ShiftRows;
    ShiftRowsMeaning(SubBytes(s), r, c);
  }

  lemma RoundByte(s: Block, k: Block, last: bool, r: nat, c: nat)
    requires r < 4 && c < 4
    ensures At(Round(s, k, last), r, c) == NewByte(s, At(k, r, c), last, r, c)
  {
    hide Turned, Row, MixColumns, ShiftRows, SubBytes, Xor;
    var t := ShiftRows(SubBytes(s));
    TurnedIs(s, r, c);
    TurnedIs(s, (r + 1) % 4, c);
    TurnedIs(s, (r + 2) % 4, c);
    TurnedIs(s, (r + 3) % 4, c);
    MixedByte(t, r, c);
    XorCommutes(if last then At(t, r, c) else At(MixColumns(t), r, c), At(k, r, c));
  }

  lemma RoundKeyByte(key: Block, n: nat, r: nat, c: nat)
    requires n <= 10 && r < 4 && c < 4
    ensures At(KeySchedule(key)[n], r, c) == KeyWord(key, 4 * n + c)[r]
  {
    hide KeyWord;
    assert c == 0 || c == 1 || c == 2 || c == 3;
  }

  /** A state meets the equations of round n exactly when the round makes it. */
  lemma RoundIs(key: Block, ks: seq<KeyColumn>, n: nat, s: Block, t: Block)
    requires KeyWords(key, ks) && 1 <= n <= 10
    ensures NextState(ks, n, s, t) <==> t == Round(s, KeySchedule(key)[n], n == 10)
  {
    hide KeyByte, NewByte, Round, At, KeySchedule;
    var k := KeySchedule(key)[n];
    var u := Round(s, k, n == 10);
    forall r, c | 0 <= r < 4 && 0 <= c < 4 ensures At(u, r, c) == NewByte(s, ks[4 * n + c][r], n == 10, r, c) {
      RoundByte(s, k, n == 10, r, c);
      RoundKeyByte(key, n, r, c);
      WordsDetermined(key, ks, 4 * n + c);
    }
    if NextState(ks, n, s, t) {
      SameBytes(t, u);
    }
  }

  lemma StartIs(key: Block, ks: seq<KeyColumn>, pt: Block, s: Block)
    requires KeyWords(key, ks)
    ensures FirstState(ks, pt, s) <==> s == AddRoundKey(pt, KeySchedule(key)[0])
  {
    hide KeyByte, KeySchedule, Xor;
    var u := AddRoundKey(pt, KeySchedule(key)[0]);
    forall r, c | 0 <= r < 4 && 0 <= c < 4 ensures At(u, r, c) == Xor(At(pt, r, c), ks[c][r]) {
      RoundKeyByte(key, 0, r, c);
      WordsDetermined(key, ks, c);
    }
    if FirstState(ks, pt, s) {
      SameBytes(s, u);
    }
  }

  lemma {:induction false} StatesDetermined(key: Block, ks: seq<KeyColumn>, pt: Block, ss: seq<Block>, n: nat)
    requires KeyWords(key, ks) && States(ks, pt, ss) && n <= 10
    ensures ss[n] == Rounds(KeySchedule(key), pt, n)
  {
    hide KeyByte, FirstState, NextState, KeySchedule, Round, AddRoundKey;
    if n == 0 {
      StartIs(key, ks, pt, ss[0]);
    } else {
      StatesDetermined(key, ks, pt, ss, n - 1);
      RoundIs(key, ks, n, ss[n - 1], ss[n]);
    }
  }

  /** The kernel's cipher is the standard's: the equations have one solution, and end in it. */
  lemma EncryptExactly(key: Block, pt: Block, ct: Block)
    ensures Standard(key, pt, ct) <==> ct == Encrypt(key, pt)
  {
    hide KeyByte, FirstState, NextState, KeySchedule, Round, AddRoundKey, KeyWord;
    if Standard(key, pt, ct) {
      var ks: seq<KeyColumn>, ss: seq<Block> :| KeyWords(key, ks) && States(ks, pt, ss) && ss[10] == ct;
      StatesDetermined(key, ks, pt, ss, 10);
    }
    var ks: seq<KeyColumn> := seq(44, i requires 0 <= i < 44 => KeyWord(key, i));
    var ss: seq<Block> := seq(11, n requires 0 <= n < 11 => Rounds(KeySchedule(key), pt, n));
    WordsMeet(key, ks);
    Meets(key, ks, pt, ss);
    assert KeyWords(key, ks) && States(ks, pt, ss) && ss[10] == Encrypt(key, pt);
  }

  lemma Meets(key: Block, ks: seq<KeyColumn>, pt: Block, ss: seq<Block>)
    requires KeyWords(key, ks) && |ss| == 11
    requires forall n :: 0 <= n < 11 ==> ss[n] == Rounds(KeySchedule(key), pt, n)
    ensures States(ks, pt, ss)
  {
    hide KeyByte, FirstState, NextState, KeySchedule, Round, AddRoundKey;
    StartIs(key, ks, pt, ss[0]);
    forall n | 1 <= n <= 10 ensures NextState(ks, n, ss[n - 1], ss[n]) {
      RoundIs(key, ks, n, ss[n - 1], ss[n]);
    }
  }
}
