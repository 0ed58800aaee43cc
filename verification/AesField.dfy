/** Arithmetic on the bytes of AES: the field GF(2^8) of section 4 of FIPS 197 and the
    two substitution tables. */
module AesField {

  // ---------- substitution tables ----------

  /** The argument that the four low bits of i select. */
  function Pick(i: bv8, r0: bv8, r1: bv8, r2: bv8, r3: bv8, r4: bv8, r5: bv8, r6: bv8, r7: bv8,
                r8: bv8, r9: bv8, r10: bv8, r11: bv8, r12: bv8, r13: bv8, r14: bv8, r15: bv8): bv8 {
    if i & 8 == 0 then
      if i & 4 == 0 then
        if i & 2 == 0 then (if i & 1 == 0 then r0 else r1) else (if i & 1 == 0 then r2 else r3)
      else
        if i & 2 == 0 then (if i & 1 == 0 then r4 else r5) else (if i & 1 == 0 then r6 else r7)
    else
      if i & 4 == 0 then
        if i & 2 == 0 then (if i & 1 == 0 then r8 else r9) else (if i & 1 == 0 then r10 else r11)
      else
        if i & 2 == 0 then (if i & 1 == 0 then r12 else r13) else (if i & 1 == 0 then r14 else r15)
  }

  /** AES_SBOX, row by row: the high half of x selects the row, the low half the entry. */
  function SboxRow0(x: bv8): bv8 {
    Pick(x, 0x63, 0x7c, 0x77, 0x7b, 0xf2, 0x6b, 0x6f, 0xc5, 0x30, 0x01, 0x67, 0x2b, 0xfe, 0xd7, 0xab, 0x76)
  }

  function SboxRow1(x: bv8): bv8 {
    Pick(x, 0xca, 0x82, 0xc9, 0x7d, 0xfa, 0x59, 0x47, 0xf0, 0xad, 0xd4, 0xa2, 0xaf, 0x9c, 0xa4, 0x72, 0xc0)
  }

  function SboxRow2(x: bv8): bv8 {
    Pick(x, 0xb7, 0xfd, 0x93, 0x26, 0x36, 0x3f, 0xf7, 0xcc, 0x34, 0xa5, 0xe5, 0xf1, 0x71, 0xd8, 0x31, 0x15)
  }

  function SboxRow3(x: bv8): bv8 {
    Pick(x, 0x04, 0xc7, 0x23, 0xc3, 0x18, 0x96, 0x05, 0x9a, 0x07, 0x12, 0x80, 0xe2, 0xeb, 0x27, 0xb2, 0x75)
  }

  function SboxRow4(x: bv8): bv8 {
    Pick(x, 0x09, 0x83, 0x2c, 0x1a, 0x1b, 0x6e, 0x5a, 0xa0, 0x52, 0x3b, 0xd6, 0xb3, 0x29, 0xe3, 0x2f, 0x84)
  }

  function SboxRow5(x: bv8): bv8 {
    Pick(x, 0x53, 0xd1, 0x00, 0xed, 0x20, 0xfc, 0xb1, 0x5b, 0x6a, 0xcb, 0xbe, 0x39, 0x4a, 0x4c, 0x58, 0xcf)
  }

  function SboxRow6(x: bv8): bv8 {
    Pick(x, 0xd0, 0xef, 0xaa, 0xfb, 0x43, 0x4d, 0x33, 0x85, 0x45, 0xf9, 0x02, 0x7f, 0x50, 0x3c, 0x9f, 0xa8)
  }

  function SboxRow7(x: bv8): bv8 {
    Pick(x, 0x51, 0xa3, 0x40, 0x8f, 0x92, 0x9d, 0x38, 0xf5, 0xbc, 0xb6, 0xda, 0x21, 0x10, 0xff, 0xf3, 0xd2)
  }

  function SboxRow8(x: bv8): bv8 {
    Pick(x, 0xcd, 0x0c, 0x13, 0xec, 0x5f, 0x97, 0x44, 0x17, 0xc4, 0xa7, 0x7e, 0x3d, 0x64, 0x5d, 0x19, 0x73)
  }

  function SboxRow9(x: bv8): bv8 {
    Pick(x, 0x60, 0x81, 0x4f, 0xdc, 0x22, 0x2a, 0x90, 0x88, 0x46, 0xee, 0xb8, 0x14, 0xde, 0x5e, 0x0b, 0xdb)
  }

  function SboxRow10(x: bv8): bv8 {
    Pick(x, 0xe0, 0x32, 0x3a, 0x0a, 0x49, 0x06, 0x24, 0x5c, 0xc2, 0xd3, 0xac, 0x62, 0x91, 0x95, 0xe4, 0x79)
  }

  function SboxRow11(x: bv8): bv8 {
    Pick(x, 0xe7, 0xc8, 0x37, 0x6d, 0x8d, 0xd5, 0x4e, 0xa9, 0x6c, 0x56, 0xf4, 0xea, 0x65, 0x7a, 0xae, 0x08)
  }

  function SboxRow12(x: bv8): bv8 {
    Pick(x, 0xba, 0x78, 0x25, 0x2e, 0x1c, 0xa6, 0xb4, 0xc6, 0xe8, 0xdd, 0x74, 0x1f, 0x4b, 0xbd, 0x8b, 0x8a)
  }

  function SboxRow13(x: bv8): bv8 {
    Pick(x, 0x70, 0x3e, 0xb5, 0x66, 0x48, 0x03, 0xf6, 0x0e, 0x61, 0x35, 0x57, 0xb9, 0x86, 0xc1, 0x1d, 0x9e)
  }

  function SboxRow14(x: bv8): bv8 {
    Pick(x, 0xe1, 0xf8, 0x98, 0x11, 0x69, 0xd9, 0x8e, 0x94, 0x9b, 0x1e, 0x87, 0xe9, 0xce, 0x55, 0x28, 0xdf)
  }

  function SboxRow15(x: bv8): bv8 {
    Pick(x, 0x8c, 0xa1, 0x89, 0x0d, 0xbf, 0xe6, 0x42, 0x68, 0x41, 0x99, 0x2d, 0x0f, 0xb0, 0x54, 0xbb, 0x16)
  }

  function Sbox(x: bv8): bv8 {
    Pick(x >> 4, SboxRow0(x), SboxRow1(x), SboxRow2(x), SboxRow3(x), SboxRow4(x), SboxRow5(x), SboxRow6(x), SboxRow7(x),
         SboxRow8(x), SboxRow9(x), SboxRow10(x), SboxRow11(x), SboxRow12(x), SboxRow13(x), SboxRow14(x), SboxRow15(x))
  }

  /** AES_RSBOX */
  function InvSbox(x: bv8): bv8 {
    Pick(x >> 4,
         Pick(x, 0x52, 0x09, 0x6a, 0xd5, 0x30, 0x36, 0xa5, 0x38, 0xbf, 0x40, 0xa3, 0x9e, 0x81, 0xf3, 0xd7, 0xfb),
         Pick(x, 0x7c, 0xe3, 0x39, 0x82, 0x9b, 0x2f, 0xff, 0x87, 0x34, 0x8e, 0x43, 0x44, 0xc4, 0xde, 0xe9, 0xcb),
         Pick(x, 0x54, 0x7b, 0x94, 0x32, 0xa6, 0xc2, 0x23, 0x3d, 0xee, 0x4c, 0x95, 0x0b, 0x42, 0xfa, 0xc3, 0x4e),
         Pick(x, 0x08, 0x2e, 0xa1, 0x66, 0x28, 0xd9, 0x24, 0xb2, 0x76, 0x5b, 0xa2, 0x49, 0x6d, 0x8b, 0xd1, 0x25),
         Pick(x, 0x72, 0xf8, 0xf6, 0x64, 0x86, 0x68, 0x98, 0x16, 0xd4, 0xa4, 0x5c, 0xcc, 0x5d, 0x65, 0xb6, 0x92),
         Pick(x, 0x6c, 0x70, 0x48, 0x50, 0xfd, 0xed, 0xb9, 0xda, 0x5e, 0x15, 0x46, 0x57, 0xa7, 0x8d, 0x9d, 0x84),
         Pick(x, 0x90, 0xd8, 0xab, 0x00, 0x8c, 0xbc, 0xd3, 0x0a, 0xf7, 0xe4, 0x58, 0x05, 0xb8, 0xb3, 0x45, 0x06),
         Pick(x, 0xd0, 0x2c, 0x1e, 0x8f, 0xca, 0x3f, 0x0f, 0x02, 0xc1, 0xaf, 0xbd, 0x03, 0x01, 0x13, 0x8a, 0x6b),
         Pick(x, 0x3a, 0x91, 0x11, 0x41, 0x4f, 0x67, 0xdc, 0xea, 0x97, 0xf2, 0xcf, 0xce, 0xf0, 0xb4, 0xe6, 0x73),
         Pick(x, 0x96, 0xac, 0x74, 0x22, 0xe7, 0xad, 0x35, 0x85, 0xe2, 0xf9, 0x37, 0xe8, 0x1c, 0x75, 0xdf, 0x6e),
         Pick(x, 0x47, 0xf1, 0x1a, 0x71, 0x1d, 0x29, 0xc5, 0x89, 0x6f, 0xb7, 0x62, 0x0e, 0xaa, 0x18, 0xbe, 0x1b),
         Pick(x, 0xfc, 0x56, 0x3e, 0x4b, 0xc6, 0xd2, 0x79, 0x20, 0x9a, 0xdb, 0xc0, 0xfe, 0x78, 0xcd, 0x5a, 0xf4),
         Pick(x, 0x1f, 0xdd, 0xa8, 0x33, 0x88, 0x07, 0xc7, 0x31, 0xb1, 0x12, 0x10, 0x59, 0x27, 0x80, 0xec, 0x5f),
         Pick(x, 0x60, 0x51, 0x7f, 0xa9, 0x19, 0xb5, 0x4a, 0x0d, 0x2d, 0xe5, 0x7a, 0x9f, 0x93, 0xc9, 0x9c, 0xef),
         Pick(x, 0xa0, 0xe0, 0x3b, 0x4d, 0xae, 0x2a, 0xf5, 0xb0, 0xc8, 0xeb, 0xbb, 0x3c, 0x83, 0x53, 0x99, 0x61),
         Pick(x, 0x17, 0x2b, 0x04, 0x7e, 0xba, 0x77, 0xd6, 0x26, 0xe1, 0x69, 0x14, 0x63, 0x55, 0x21, 0x0c, 0x7d))
  }

  lemma SboxInverse0(x: bv8)
    requires x & 0xE0 == 0x00
    ensures InvSbox(Sbox(x)) == x
  {
  }

  lemma SboxInverse1(x: bv8)
    requires x & 0xE0 == 0x20
    ensures InvSbox(Sbox(x)) == x
  {
  }

  lemma SboxInverse2(x: bv8)
    requires x & 0xE0 == 0x40
    ensures InvSbox(Sbox(x)) == x
  {
  }

  lemma SboxInverse3(x: bv8)
    requires x & 0xE0 == 0x60
    ensures InvSbox(Sbox(x)) == x
  {
  }

  lemma SboxInverse4(x: bv8)
    requires x & 0xE0 == 0x80
    ensures InvSbox(Sbox(x)) == x
  {
  }

  lemma SboxInverse5(x: bv8)
    requires x & 0xE0 == 0xA0
    ensures InvSbox(Sbox(x)) == x
  {
  }

  lemma SboxInverse6(x: bv8)
    requires x & 0xE0 == 0xC0
    ensures InvSbox(Sbox(x)) == x
  {
  }

  lemma SboxInverse7(x: bv8)
    requires x & 0xE0 == 0xE0
    ensures InvSbox(Sbox(x)) == x
  {
  }

  /** The second table undoes the first, on every byte. */
  lemma SboxInverse(x: bv8)
    ensures InvSbox(Sbox(x)) == x
  {
    hide Sbox, InvSbox;
    if x & 0xE0 == 0x00 {
      SboxInverse0(x);
    } else if x & 0xE0 == 0x20 {
      SboxInverse1(x);
    } else if x & 0xE0 == 0x40 {
      SboxInverse2(x);
    } else if x & 0xE0 == 0x60 {
      SboxInverse3(x);
    } else if x & 0xE0 == 0x80 {
      SboxInverse4(x);
    } else if x & 0xE0 == 0xA0 {
      SboxInverse5(x);
    } else if x & 0xE0 == 0xC0 {
      SboxInverse6(x);
    } else {
      SboxInverse7(x);
    }
  }

  // ---------- multiplication ----------

  function Xor(a: bv8, b: bv8): bv8 { a ^ b }

  function Xor4(a: bv8, b: bv8, c: bv8, d: bv8): bv8 { Xor(Xor(a, b), Xor(c, d)) }

  lemma XorCommutes(a: bv8, b: bv8)
    ensures Xor(a, b) == Xor(b, a)
  {
  }

  lemma XorAssociates(a: bv8, b: bv8, c: bv8)
    ensures Xor(Xor(a, b), c) == Xor(a, Xor(b, c))
  {
  }

  lemma XorZero(a: bv8)
    ensures Xor(a, 0) == a && Xor(0, a) == a && Xor(a, a) == 0
  {
  }

  lemma Swap(a: bv8, b: bv8, c: bv8, d: bv8)
    ensures Xor(Xor(a, b), Xor(c, d)) == Xor(Xor(a, c), Xor(b, d))
  {
    hide Xor;
    XorAssociates(a, b, Xor(c, d));
    XorAssociates(b, c, d);
    XorCommutes(b, c);
    XorAssociates(c, b, d);
    XorAssociates(a, c, Xor(b, d));
  }

  lemma Xor4Adds(p0: bv8, p1: bv8, p2: bv8, p3: bv8, q0: bv8, q1: bv8, q2: bv8, q3: bv8)
    ensures Xor(Xor4(p0, p1, p2, p3), Xor4(q0, q1, q2, q3)) == Xor4(Xor(p0, q0), Xor(p1, q1), Xor(p2, q2), Xor(p3, q3))
  {
    hide Xor;
    Swap(Xor(p0, p1), Xor(p2, p3), Xor(q0, q1), Xor(q2, q3));
    Swap(p0, p1, q0, q1);
    Swap(p2, p3, q2, q3);
  }

  /** Multiplication by x modulo x^8 + x^4 + x^3 + x + 1. */
  function Xtime(x: bv8): bv8 { if x & 0x80 != 0 then (x << 1) ^ 0x1b else x << 1 }

  function Mul2(x: bv8): bv8 { Xtime(x) }
  function Mul3(x: bv8): bv8 { Xor(Xtime(x), x) }
  function Mul9(x: bv8): bv8 { Xor(Xtime(Xtime(Xtime(x))), x) }
  function Mul11(x: bv8): bv8 { Xor(Xtime(Xor(Xtime(Xtime(x)), x)), x) }
  function Mul13(x: bv8): bv8 { Xor(Xtime(Xtime(Xor(Xtime(x), x))), x) }
  function Mul14(x: bv8): bv8 { Xtime(Xor(Xtime(Xor(Xtime(x), x)), x)) }

  lemma XtimeLinear(x: bv8, y: bv8)
    ensures Xtime(Xor(x, y)) == Xor(Xtime(x), Xtime(y))
  {
    XtimeLinearBits(x, y);
    hide Xtime;
  }

  lemma XtimeLinearBits(x: bv8, y: bv8)
    ensures Xtime(x ^ y) == Xtime(x) ^ Xtime(y)
  {
    TopBit(x, y);
    ShiftLinear(x, y);
    if x & 0x80 != 0 {
      if y & 0x80 != 0 {
      } else {
      }
    } else {
    }
  }

  lemma TopBit(x: bv8, y: bv8)
    ensures ((x ^ y) & 0x80 != 0) <==> ((x & 0x80 != 0) != (y & 0x80 != 0))
  {
  }

  lemma ShiftLinear(x: bv8, y: bv8)
    ensures (x ^ y) << 1 == (x << 1) ^ (y << 1)
  {
  }

  /** Multiplication by the field element k < 16, bit by bit: the reference definition. */
  function FieldMul(k: bv8, x: bv8): bv8 {
    var x2 := Xtime(x);
    var x4 := Xtime(x2);
    var x8 := Xtime(x4);
    Xor4(if k & 8 != 0 then x8 else 0, if k & 4 != 0 then x4 else 0,
         if k & 2 != 0 then x2 else 0, if k & 1 != 0 then x else 0)
  }

  /** The nested shifts of the code are multiplications by 2, 3, 9, 11, 13 and 14. */
  lemma MulMeaning(x: bv8)
    ensures Mul2(x) == FieldMul(2, x) && Mul3(x) == FieldMul(3, x) && Mul9(x) == FieldMul(9, x)
    ensures Mul11(x) == FieldMul(11, x) && Mul13(x) == FieldMul(13, x) && Mul14(x) == FieldMul(14, x)
  {
    hide Xtime, Xor;
    var x2 := Xtime(x);
    var x4 := Xtime(x2);
    var x8 := Xtime(x4);
    XtimeLinear(x4, x);
    XtimeLinear(x2, x);
    XtimeLinear(x4, x2);
    XtimeLinear(Xor(x4, x2), x);
    XorUnits(x, x2, x4, x8);
  }

  lemma XorUnits(x: bv8, x2: bv8, x4: bv8, x8: bv8)
    ensures Xor4(0, 0, x2, 0) == x2 && Xor4(0, 0, x2, x) == Xor(x2, x) && Xor4(x8, 0, 0, x) == Xor(x8, x)
    ensures Xor4(x8, 0, x2, x) == Xor(Xor(x8, x2), x) && Xor4(x8, x4, 0, x) == Xor(Xor(x8, x4), x)
    ensures Xor4(x8, x4, x2, 0) == Xor(Xor(x8, x4), x2)
  {
    hide Xor;
    XorZero(0);
    XorZero(x);
    XorZero(x2);
    XorZero(x8);
    XorZero(Xor(x2, x));
    XorAssociates(x8, x2, x);
  }

  lemma MulsLinear(x: bv8, y: bv8)
    ensures Mul9(Xor(x, y)) == Xor(Mul9(x), Mul9(y)) && Mul11(Xor(x, y)) == Xor(Mul11(x), Mul11(y))
    ensures Mul13(Xor(x, y)) == Xor(Mul13(x), Mul13(y)) && Mul14(Xor(x, y)) == Xor(Mul14(x), Mul14(y))
  {
    hide Xtime, Xor;
    var x2, y2 := Xtime(x), Xtime(y);
    var x4, y4 := Xtime(x2), Xtime(y2);
    XtimeLinear(x, y);
    XtimeLinear(x2, y2);
    XtimeLinear(x4, y4);
    Swap(Xtime(x4), Xtime(y4), x, y);
    // 11
    Swap(x4, y4, x, y);
    XtimeLinear(Xor(x4, x), Xor(y4, y));
    Swap(Xtime(Xor(x4, x)), Xtime(Xor(y4, y)), x, y);
    // 13
    Swap(x2, y2, x, y);
    XtimeLinear(Xor(x2, x), Xor(y2, y));
    var u, v := Xtime(Xor(x2, x)), Xtime(Xor(y2, y));
    XtimeLinear(u, v);
    Swap(Xtime(u), Xtime(v), x, y);
    // 14
    Swap(u, v, x, y);
    XtimeLinear(Xor(u, x), Xor(v, y));
  }

  // ---------- a column of the state ----------

  /** One output byte of MixColumns, a the byte of its own row. */
  function MixByte(a: bv8, b: bv8, c: bv8, d: bv8): bv8 { Xor4(Mul2(a), Mul3(b), c, d) }

  /** One output byte of InvMixColumns. */
  function InvMixByte(a: bv8, b: bv8, c: bv8, d: bv8): bv8 { Xor4(Mul14(a), Mul11(b), Mul13(c), Mul9(d)) }

  lemma MulsLinear4(a: bv8, b: bv8, c: bv8, d: bv8)
    ensures Mul9(Xor4(a, b, c, d)) == Xor4(Mul9(a), Mul9(b), Mul9(c), Mul9(d))
    ensures Mul11(Xor4(a, b, c, d)) == Xor4(Mul11(a), Mul11(b), Mul11(c), Mul11(d))
    ensures Mul13(Xor4(a, b, c, d)) == Xor4(Mul13(a), Mul13(b), Mul13(c), Mul13(d))
    ensures Mul14(Xor4(a, b, c, d)) == Xor4(Mul14(a), Mul14(b), Mul14(c), Mul14(d))
  {
    hide Mul9, Mul11, Mul13, Mul14, Xor;
    MulsLinear(a, b);
    MulsLinear(c, d);
    MulsLinear(Xor(a, b), Xor(c, d));
  }

  function Term(k: bv8, bit: bv8, y: bv8): bv8 { if k & bit != 0 then y else 0 }

  /** The polynomial k of degree at most four, evaluated at x times a. */
  function Sum(k: bv8, a: bv8): bv8 {
    var a2 := Xtime(a);
    var a4 := Xtime(a2);
    var a8 := Xtime(a4);
    Xor(Term(k, 16, Xtime(a8)), Xor4(Term(k, 8, a8), Term(k, 4, a4), Term(k, 2, a2), Term(k, 1, a)))
  }

  lemma BitAdds(j: bv8, k: bv8, bit: bv8)
    requires bit == 1 || bit == 2 || bit == 4 || bit == 8 || bit == 16
    ensures ((j ^ k) & bit != 0) <==> ((j & bit != 0) != (k & bit != 0))
  {
  }

  lemma TermAdds(j: bv8, k: bv8, bit: bv8, y: bv8)
    requires bit == 1 || bit == 2 || bit == 4 || bit == 8 || bit == 16
    ensures Xor(Term(j, bit, y), Term(k, bit, y)) == Term(j ^ k, bit, y)
  {
    hide Xor;
    BitAdds(j, k, bit);
    XorZero(y);
    XorZero(0);
  }

  lemma SumAdds(j: bv8, k: bv8, a: bv8)
    ensures Xor(Sum(j, a), Sum(k, a)) == Sum(j ^ k, a)
  {
    hide Xor, Xtime, Xor4, Term;
    var a2 := Xtime(a);
    var a4 := Xtime(a2);
    var a8 := Xtime(a4);
    var a16 := Xtime(a8);
    Swap(Term(j, 16, a16), Xor4(Term(j, 8, a8), Term(j, 4, a4), Term(j, 2, a2), Term(j, 1, a)),
         Term(k, 16, a16), Xor4(Term(k, 8, a8), Term(k, 4, a4), Term(k, 2, a2), Term(k, 1, a)));
    Xor4Adds(Term(j, 8, a8), Term(j, 4, a4), Term(j, 2, a2), Term(j, 1, a),
             Term(k, 8, a8), Term(k, 4, a4), Term(k, 2, a2), Term(k, 1, a));
    TermAdds(j, k, 16, a16);
    TermAdds(j, k, 8, a8);
    TermAdds(j, k, 4, a4);
    TermAdds(j, k, 2, a2);
    TermAdds(j, k, 1, a);
  }

  lemma LowBits(k: bv8)
    requires k < 16
    ensures k & 16 == 0 && (k << 1) & 16 == (k & 8) << 1 && (k << 1) & 8 == (k & 4) << 1
    ensures (k << 1) & 4 == (k & 2) << 1 && (k << 1) & 2 == (k & 1) << 1 && (k << 1) & 1 == 0
  {
  }

  lemma ShiftedBit(k: bv8, bit: bv8)
    requires bit == 1 || bit == 2 || bit == 4 || bit == 8
    ensures (k << 1) & (bit << 1) != 0 <==> k & bit != 0
  {
  }

  lemma MulIsSum(k: bv8, a: bv8)
    requires k < 16
    ensures FieldMul(k, a) == Sum(k, a)
  {
    hide Xor, Xtime, Xor4;
    LowBits(k);
    XorZero(FieldMul(k, a));
  }

  lemma MulOfDouble(k: bv8, a: bv8)
    requires k < 16
    ensures FieldMul(k, Xtime(a)) == Sum(k << 1, a)
  {
    hide Xor, Xtime;
    LowBits(k);
    ShiftedBit(k, 8);
    ShiftedBit(k, 4);
    ShiftedBit(k, 2);
    ShiftedBit(k, 1);
    var a2 := Xtime(a);
    var a4 := Xtime(a2);
    var a8 := Xtime(a4);
    Tail(Term(k, 8, Xtime(a8)), Term(k, 4, a8), Term(k, 2, a4), Term(k, 1, a2));
  }

  lemma Tail(p: bv8, q: bv8, r: bv8, s: bv8)
    ensures Xor4(p, q, r, s) == Xor(p, Xor4(q, r, s, 0))
  {
    hide Xor;
    XorAssociates(p, q, Xor(r, s));
    XorAssociates(q, r, s);
    XorZero(s);
  }

  /** The products of the two matrices as polynomials of a. */
  lemma Products(a: bv8)
    ensures Mul9(a) == Sum(9, a) && Mul11(a) == Sum(11, a) && Mul13(a) == Sum(13, a) && Mul14(a) == Sum(14, a)
    ensures Mul9(Mul2(a)) == Sum(18, a) && Mul11(Mul2(a)) == Sum(22, a)
    ensures Mul13(Mul2(a)) == Sum(26, a) && Mul14(Mul2(a)) == Sum(28, a)
  {
    hide Xtime, Xor, Mul9, Mul11, Mul13, Mul14, FieldMul, Sum;
    MulMeaning(a);
    MulMeaning(Xtime(a));
    MulIsSum(9, a);
    MulIsSum(11, a);
    MulIsSum(13, a);
    MulIsSum(14, a);
    MulOfDouble(9, a);
    MulOfDouble(11, a);
    MulOfDouble(13, a);
    MulOfDouble(14, a);
  }

  lemma ProductsOfTriple(a: bv8)
    ensures Mul9(Mul3(a)) == Sum(27, a) && Mul11(Mul3(a)) == Sum(29, a)
    ensures Mul13(Mul3(a)) == Sum(23, a) && Mul14(Mul3(a)) == Sum(18, a)
  {
    hide Xtime, Xor, Mul9, Mul11, Mul13, Mul14, Sum;
    Products(a);
    MulsLinear(Xtime(a), a);
    SumAdds(18, 9, a);
    SumAdds(22, 11, a);
    SumAdds(26, 13, a);
    SumAdds(28, 14, a);
  }

  lemma FourSums(i: bv8, j: bv8, k: bv8, l: bv8, a: bv8)
    ensures Xor4(Sum(i, a), Sum(j, a), Sum(k, a), Sum(l, a)) == Sum((i ^ j) ^ (k ^ l), a)
  {
    hide Xor, Sum;
    SumAdds(i, j, a);
    SumAdds(k, l, a);
    SumAdds(i ^ j, k ^ l, a);
  }

  lemma Constants(a: bv8)
    ensures Sum(0, a) == 0 && Sum(1, a) == a
  {
    hide Xor, Xtime;
    XorZero(0);
    XorZero(a);
  }

  /** The product of the two circulant matrices, entry by entry: the polynomials cancel. */
  lemma ColumnProduct(a: bv8)
    ensures Xor4(Mul14(Mul2(a)), Mul11(a), Mul13(a), Mul9(Mul3(a))) == a
    ensures Xor4(Mul14(Mul3(a)), Mul11(Mul2(a)), Mul13(a), Mul9(a)) == 0
    ensures Xor4(Mul14(a), Mul11(Mul3(a)), Mul13(Mul2(a)), Mul9(a)) == 0
    ensures Xor4(Mul14(a), Mul11(a), Mul13(Mul3(a)), Mul9(Mul2(a))) == 0
  {
    hide Xor4, Mul2, Mul9, Mul11, Mul13, Mul14, Mul3, Sum;
    Products(a);
    ProductsOfTriple(a);
    Constants(a);
    FourSums(28, 11, 13, 27, a);
    FourSums(18, 22, 13, 9, a);
    FourSums(14, 29, 26, 9, a);
    FourSums(14, 11, 23, 18, a);
  }

  lemma Transpose(p0: bv8, p1: bv8, p2: bv8, p3: bv8, q0: bv8, q1: bv8, q2: bv8, q3: bv8,
                  r0: bv8, r1: bv8, r2: bv8, r3: bv8, t0: bv8, t1: bv8, t2: bv8, t3: bv8)
    ensures Xor4(Xor4(p0, p1, p2, p3), Xor4(q0, q1, q2, q3), Xor4(r0, r1, r2, r3), Xor4(t0, t1, t2, t3))
            == Xor4(Xor4(p0, q0, r0, t0), Xor4(p1, q1, r1, t1), Xor4(p2, q2, r2, t2), Xor4(p3, q3, r3, t3))
  {
    hide Xor;
    Xor4Adds(p0, p1, p2, p3, q0, q1, q2, q3);
    Xor4Adds(r0, r1, r2, r3, t0, t1, t2, t3);
    Xor4Adds(Xor(p0, q0), Xor(p1, q1), Xor(p2, q2), Xor(p3, q3), Xor(r0, t0), Xor(r1, t1), Xor(r2, t2), Xor(r3, t3));
  }

  /** InvMixColumns undoes MixColumns on any column; the other rows follow by rotation. */
  lemma ColumnInverse(a: bv8, b: bv8, c: bv8, d: bv8)
    ensures InvMixByte(MixByte(a, b, c, d), MixByte(b, c, d, a), MixByte(c, d, a, b), MixByte(d, a, b, c)) == a
  {
    hide Mul2, Mul3, Mul9, Mul11, Mul13, Mul14, Xor4;
    MulsLinear4(Mul2(a), Mul3(b), c, d);
    MulsLinear4(Mul2(b), Mul3(c), d, a);
    MulsLinear4(Mul2(c), Mul3(d), a, b);
    MulsLinear4(Mul2(d), Mul3(a), b, c);
    Rotated(Mul11(Mul2(b)), Mul11(Mul3(c)), Mul11(d), Mul11(a));
    Rotated2(Mul13(Mul2(c)), Mul13(Mul3(d)), Mul13(a), Mul13(b));
    Rotated3(Mul9(Mul2(d)), Mul9(Mul3(a)), Mul9(b), Mul9(c));
    Transpose(Mul14(Mul2(a)), Mul14(Mul3(b)), Mul14(c), Mul14(d),
              Mul11(a), Mul11(Mul2(b)), Mul11(Mul3(c)), Mul11(d),
              Mul13(a), Mul13(b), Mul13(Mul2(c)), Mul13(Mul3(d)),
              Mul9(Mul3(a)), Mul9(b), Mul9(c), Mul9(Mul2(d)));
    ColumnProduct(a);
    ColumnProduct(b);
    ColumnProduct(c);
    ColumnProduct(d);
    XorZeros(a);
  }

  lemma XorZeros(a: bv8)
    ensures Xor4(a, 0, 0, 0) == a
  {
    hide Xor;
    XorZero(a);
    XorZero(0);
  }

  lemma Rotated(a: bv8, b: bv8, c: bv8, d: bv8)
    ensures Xor4(a, b, c, d) == Xor4(d, a, b, c)
  {
    hide Xor;
    XorCommutes(Xor(a, b), Xor(c, d));
    XorCommutes(c, d);
    Swap(d, c, a, b);
    XorCommutes(c, b);
  }

  lemma Rotated2(a: bv8, b: bv8, c: bv8, d: bv8)
    ensures Xor4(a, b, c, d) == Xor4(c, d, a, b)
  {
    hide Xor4;
    Rotated(a, b, c, d);
    Rotated(d, a, b, c);
  }

  lemma Rotated3(a: bv8, b: bv8, c: bv8, d: bv8)
    ensures Xor4(a, b, c, d) == Xor4(b, c, d, a)
  {
    hide Xor4;
    Rotated(b, c, d, a);
  }

  /** A sum of four terms as the code writes it. */
  function Sum4(a: bv8, b: bv8, c: bv8, d: bv8): bv8 { a ^ b ^ c ^ d }

  lemma Xor4Sum(a: bv8, b: bv8, c: bv8, d: bv8)
    ensures Sum4(a, b, c, d) == Xor4(a, b, c, d)
  {
    XorAssociates(Xor(a, b), c, d);
  }
}
