/** What the tables and shifts of AES stand for: products of polynomials over two elements,
    reduced modulo x^8 + x^4 + x^3 + x + 1 (section 4.2 of FIPS 197), and the substitution of
    section 5.1.1, the inverse in that field followed by an affine map. */
module AesStandard {
  import opened AesField

  // ---------- the field ----------

  /** The product of two polynomials of degree at most seven. */
  function Product(a: bv8, b: bv8): bv16 {
    var w := a as bv16;
    (if b & 0x01 != 0 then w else 0) ^ (if b & 0x02 != 0 then w << 1 else 0) ^
    (if b & 0x04 != 0 then w << 2 else 0) ^ (if b & 0x08 != 0 then w << 3 else 0) ^
    (if b & 0x10 != 0 then w << 4 else 0) ^ (if b & 0x20 != 0 then w << 5 else 0) ^
    (if b & 0x40 != 0 then w << 6 else 0) ^ (if b & 0x80 != 0 then w << 7 else 0)
  }

  /** A multiple of the modulus taken off where its top bit is set. */
  function Without(w: bv16, bit: bv16, multiple: bv16): bv16 { if w & bit != 0 then w ^ multiple else w }

  /** The remainder modulo x^8 + x^4 + x^3 + x + 1, the word 0x11b. */
  function Remainder(w: bv16): bv8 {
    var w6 := Without(w, 0x4000, 0x11B << 6);
    var w5 := Without(w6, 0x2000, 0x11B << 5);
    var w4 := Without(w5, 0x1000, 0x11B << 4);
    var w3 := Without(w4, 0x800, 0x11B << 3);
    var w2 := Without(w3, 0x400, 0x11B << 2);
    var w1 := Without(w2, 0x200, 0x11B << 1);
    (Without(w1, 0x100, 0x11B) & 0xFF) as bv8
  }

  function Times(a: bv8, b: bv8): bv8 { Remainder(Product(a, b)) }

  /** The shift with its reduction byte is the product with x. */
  lemma XtimeIsProduct(a: bv8)
    ensures Xtime(a) == Times(a, 2)
  {
  }

  // ---------- the substitution ----------

  /** Bit i of the result is the sum of bits i, i + 4, i + 5, i + 6 and i + 7, modulo 8. */
  function Affine(y: bv8): bv8 {
    y ^ y.RotateLeft(1) ^ y.RotateLeft(2) ^ y.RotateLeft(3) ^ y.RotateLeft(4)
  }

  /** The map that undoes it: the sum of bits i + 2, i + 5 and i + 7. */
  function Unaffine(s: bv8): bv8 { s.RotateLeft(1) ^ s.RotateLeft(3) ^ s.RotateLeft(6) }

  lemma AffineBack(s: bv8)
    ensures Affine(Unaffine(s)) == s
  {
  }

  /** y is the inverse of x in the field, 0 for 0. */
  predicate Inverse(x: bv8, y: bv8) { if x == 0 then y == 0 else Times(x, y) == 1 }

  lemma Row0(x: bv8)
    requires x & 0xF0 == 0x00
    ensures Inverse(x, Unaffine(SboxRow0(x) ^ 0x63))
  {
  }

  lemma Row1(x: bv8)
    requires x & 0xF0 == 0x10
    ensures Inverse(x, Unaffine(SboxRow1(x) ^ 0x63))
  {
  }

  lemma Row2(x: bv8)
    requires x & 0xF0 == 0x20
    ensures Inverse(x, Unaffine(SboxRow2(x) ^ 0x63))
  {
  }

  lemma Row3(x: bv8)
    requires x & 0xF0 == 0x30
    ensures Inverse(x, Unaffine(SboxRow3(x) ^ 0x63))
  {
  }

  lemma Row4(x: bv8)
    requires x & 0xF0 == 0x40
    ensures Inverse(x, Unaffine(SboxRow4(x) ^ 0x63))
  {
  }

  lemma Row5(x: bv8)
    requires x & 0xF0 == 0x50
    ensures Inverse(x, Unaffine(SboxRow5(x) ^ 0x63))
  {
  }

  lemma Row6(x: bv8)
    requires x & 0xF0 == 0x60
    ensures Inverse(x, Unaffine(SboxRow6(x) ^ 0x63))
  {
  }

  lemma Row7(x: bv8)
    requires x & 0xF0 == 0x70
    ensures Inverse(x, Unaffine(SboxRow7(x) ^ 0x63))
  {
  }

  lemma Row8(x: bv8)
    requires x & 0xF0 == 0x80
    ensures Inverse(x, Unaffine(SboxRow8(x) ^ 0x63))
  {
  }

  lemma Row9(x: bv8)
    requires x & 0xF0 == 0x90
    ensures Inverse(x, Unaffine(SboxRow9(x) ^ 0x63))
  {
  }

  lemma Row10(x: bv8)
    requires x & 0xF0 == 0xA0
    ensures Inverse(x, Unaffine(SboxRow10(x) ^ 0x63))
  {
  }

  lemma Row11(x: bv8)
    requires x & 0xF0 == 0xB0
    ensures Inverse(x, Unaffine(SboxRow11(x) ^ 0x63))
  {
  }

  lemma Row12(x: bv8)
    requires x & 0xF0 == 0xC0
    ensures Inverse(x, Unaffine(SboxRow12(x) ^ 0x63))
  {
  }

  lemma Row13(x: bv8)
    requires x & 0xF0 == 0xD0
    ensures Inverse(x, Unaffine(SboxRow13(x) ^ 0x63))
  {
  }

  lemma Row14(x: bv8)
    requires x & 0xF0 == 0xE0
    ensures Inverse(x, Unaffine(SboxRow14(x) ^ 0x63))
  {
  }

  lemma Row15(x: bv8)
    requires x & 0xF0 == 0xF0
    ensures Inverse(x, Unaffine(SboxRow15(x) ^ 0x63))
  {
  }

  lemma Selects0(x: bv8)
    requires x & 0xF0 == 0x00
    ensures Sbox(x) == SboxRow0(x)
  {
    hide SboxRow0, SboxRow1, SboxRow2, SboxRow3, SboxRow4, SboxRow5, SboxRow6, SboxRow7, SboxRow8, SboxRow9, SboxRow10,
         SboxRow11, SboxRow12, SboxRow13, SboxRow14, SboxRow15;
  }

  lemma Selects1(x: bv8)
    requires x & 0xF0 == 0x10
    ensures Sbox(x) == SboxRow1(x)
  {
    hide SboxRow0, SboxRow1, SboxRow2, SboxRow3, SboxRow4, SboxRow5, SboxRow6, SboxRow7, SboxRow8, SboxRow9, SboxRow10,
         SboxRow11, SboxRow12, SboxRow13, SboxRow14, SboxRow15;
  }

  lemma Selects2(x: bv8)
    requires x & 0xF0 == 0x20
    ensures Sbox(x) == SboxRow2(x)
  {
    hide SboxRow0, SboxRow1, SboxRow2, SboxRow3, SboxRow4, SboxRow5, SboxRow6, SboxRow7, SboxRow8, SboxRow9, SboxRow10,
         SboxRow11, SboxRow12, SboxRow13, SboxRow14, SboxRow15;
  }

  lemma Selects3(x: bv8)
    requires x & 0xF0 == 0x30
    ensures Sbox(x) == SboxRow3(x)
  {
    hide SboxRow0, SboxRow1, SboxRow2, SboxRow3, SboxRow4, SboxRow5, SboxRow6, SboxRow7, SboxRow8, SboxRow9, SboxRow10,
         SboxRow11, SboxRow12, SboxRow13, SboxRow14, SboxRow15;
  }

  lemma Selects4(x: bv8)
    requires x & 0xF0 == 0x40
    ensures Sbox(x) == SboxRow4(x)
  {
    hide SboxRow0, SboxRow1, SboxRow2, SboxRow3, SboxRow4, SboxRow5, SboxRow6, SboxRow7, SboxRow8, SboxRow9, SboxRow10,
         SboxRow11, SboxRow12, SboxRow13, SboxRow14, SboxRow15;
  }

  lemma Selects5(x: bv8)
    requires x & 0xF0 == 0x50
    ensures Sbox(x) == SboxRow5(x)
  {
    hide SboxRow0, SboxRow1, SboxRow2, SboxRow3, SboxRow4, SboxRow5, SboxRow6, SboxRow7, SboxRow8, SboxRow9, SboxRow10,
         SboxRow11, SboxRow12, SboxRow13, SboxRow14, SboxRow15;
  }

  lemma Selects6(x: bv8)
    requires x & 0xF0 == 0x60
    ensures Sbox(x) == SboxRow6(x)
  {
    hide SboxRow0, SboxRow1, SboxRow2, SboxRow3, SboxRow4, SboxRow5, SboxRow6, SboxRow7, SboxRow8, SboxRow9, SboxRow10,
         SboxRow11, SboxRow12, SboxRow13, SboxRow14, SboxRow15;
  }

  lemma Selects7(x: bv8)
    requires x & 0xF0 == 0x70
    ensures Sbox(x) == SboxRow7(x)
  {
    hide SboxRow0, SboxRow1, SboxRow2, SboxRow3, SboxRow4, SboxRow5, SboxRow6, SboxRow7, SboxRow8, SboxRow9, SboxRow10,
         SboxRow11, SboxRow12, SboxRow13, SboxRow14, SboxRow15;
  }

  lemma Selects8(x: bv8)
    requires x & 0xF0 == 0x80
    ensures Sbox(x) == SboxRow8(x)
  {
    hide SboxRow0, SboxRow1, SboxRow2, SboxRow3, SboxRow4, SboxRow5, SboxRow6, SboxRow7, SboxRow8, SboxRow9, SboxRow10,
         SboxRow11, SboxRow12, SboxRow13, SboxRow14, SboxRow15;
  }

  lemma Selects9(x: bv8)
    requires x & 0xF0 == 0x90
    ensures Sbox(x) == SboxRow9(x)
  {
    hide SboxRow0, SboxRow1, SboxRow2, SboxRow3, SboxRow4, SboxRow5, SboxRow6, SboxRow7, SboxRow8, SboxRow9, SboxRow10,
         SboxRow11, SboxRow12, SboxRow13, SboxRow14, SboxRow15;
  }

  lemma Selects10(x: bv8)
    requires x & 0xF0 == 0xA0
    ensures Sbox(x) == SboxRow10(x)
  {
    hide SboxRow0, SboxRow1, SboxRow2, SboxRow3, SboxRow4, SboxRow5, SboxRow6, SboxRow7, SboxRow8, SboxRow9, SboxRow10,
         SboxRow11, SboxRow12, SboxRow13, SboxRow14, SboxRow15;
  }

  lemma Selects11(x: bv8)
    requires x & 0xF0 == 0xB0
    ensures Sbox(x) == SboxRow11(x)
  {
    hide SboxRow0, SboxRow1, SboxRow2, SboxRow3, SboxRow4, SboxRow5, SboxRow6, SboxRow7, SboxRow8, SboxRow9, SboxRow10,
         SboxRow11, SboxRow12, SboxRow13, SboxRow14, SboxRow15;
  }

  lemma Selects12(x: bv8)
    requires x & 0xF0 == 0xC0
    ensures Sbox(x) == SboxRow12(x)
  {
    hide SboxRow0, SboxRow1, SboxRow2, SboxRow3, SboxRow4, SboxRow5, SboxRow6, SboxRow7, SboxRow8, SboxRow9, SboxRow10,
         SboxRow11, SboxRow12, SboxRow13, SboxRow14, SboxRow15;
  }

  lemma Selects13(x: bv8)
    requires x & 0xF0 == 0xD0
    ensures Sbox(x) == SboxRow13(x)
  {
    hide SboxRow0, SboxRow1, SboxRow2, SboxRow3, SboxRow4, SboxRow5, SboxRow6, SboxRow7, SboxRow8, SboxRow9, SboxRow10,
         SboxRow11, SboxRow12, SboxRow13, SboxRow14, SboxRow15;
  }

  lemma Selects14(x: bv8)
    requires x & 0xF0 == 0xE0
    ensures Sbox(x) == SboxRow14(x)
  {
    hide SboxRow0, SboxRow1, SboxRow2, SboxRow3, SboxRow4, SboxRow5, SboxRow6, SboxRow7, SboxRow8, SboxRow9, SboxRow10,
         SboxRow11, SboxRow12, SboxRow13, SboxRow14, SboxRow15;
  }

  lemma Selects15(x: bv8)
    requires x & 0xF0 == 0xF0
    ensures Sbox(x) == SboxRow15(x)
  {
    hide SboxRow0, SboxRow1, SboxRow2, SboxRow3, SboxRow4, SboxRow5, SboxRow6, SboxRow7, SboxRow8, SboxRow9, SboxRow10,
         SboxRow11, SboxRow12, SboxRow13, SboxRow14, SboxRow15;
  }

  lemma Undone0(x: bv8)
    requires x & 0xF0 == 0x00
    ensures Inverse(x, Unaffine(Sbox(x) ^ 0x63))
  {
    hide *;
    Selects0(x);
    Row0(x);
  }

  lemma Undone1(x: bv8)
    requires x & 0xF0 == 0x10
    ensures Inverse(x, Unaffine(Sbox(x) ^ 0x63))
  {
    hide *;
    Selects1(x);
    Row1(x);
  }

  lemma Undone2(x: bv8)
    requires x & 0xF0 == 0x20
    ensures Inverse(x, Unaffine(Sbox(x) ^ 0x63))
  {
    hide *;
    Selects2(x);
    Row2(x);
  }

  lemma Undone3(x: bv8)
    requires x & 0xF0 == 0x30
    ensures Inverse(x, Unaffine(Sbox(x) ^ 0x63))
  {
    hide *;
    Selects3(x);
    Row3(x);
  }

  lemma Undone4(x: bv8)
    requires x & 0xF0 == 0x40
    ensures Inverse(x, Unaffine(Sbox(x) ^ 0x63))
  {
    hide *;
    Selects4(x);
    Row4(x);
  }

  lemma Undone5(x: bv8)
    requires x & 0xF0 == 0x50
    ensures Inverse(x, Unaffine(Sbox(x) ^ 0x63))
  {
    hide *;
    Selects5(x);
    Row5(x);
  }

  lemma Undone6(x: bv8)
    requires x & 0xF0 == 0x60
    ensures Inverse(x, Unaffine(Sbox(x) ^ 0x63))
  {
    hide *;
    Selects6(x);
    Row6(x);
  }

  lemma Undone7(x: bv8)
    requires x & 0xF0 == 0x70
    ensures Inverse(x, Unaffine(Sbox(x) ^ 0x63))
  {
    hide *;
    Selects7(x);
    Row7(x);
  }

  lemma Undone8(x: bv8)
    requires x & 0xF0 == 0x80
    ensures Inverse(x, Unaffine(Sbox(x) ^ 0x63))
  {
    hide *;
    Selects8(x);
    Row8(x);
  }

  lemma Undone9(x: bv8)
    requires x & 0xF0 == 0x90
    ensures Inverse(x, Unaffine(Sbox(x) ^ 0x63))
  {
    hide *;
    Selects9(x);
    Row9(x);
  }

  lemma Undone10(x: bv8)
    requires x & 0xF0 == 0xA0
    ensures Inverse(x, Unaffine(Sbox(x) ^ 0x63))
  {
    hide *;
    Selects10(x);
    Row10(x);
  }

  lemma Undone11(x: bv8)
    requires x & 0xF0 == 0xB0
    ensures Inverse(x, Unaffine(Sbox(x) ^ 0x63))
  {
    hide *;
    Selects11(x);
    Row11(x);
  }

  lemma Undone12(x: bv8)
    requires x & 0xF0 == 0xC0
    ensures Inverse(x, Unaffine(Sbox(x) ^ 0x63))
  {
    hide *;
    Selects12(x);
    Row12(x);
  }

  lemma Undone13(x: bv8)
    requires x & 0xF0 == 0xD0
    ensures Inverse(x, Unaffine(Sbox(x) ^ 0x63))
  {
    hide *;
    Selects13(x);
    Row13(x);
  }

  lemma Undone14(x: bv8)
    requires x & 0xF0 == 0xE0
    ensures Inverse(x, Unaffine(Sbox(x) ^ 0x63))
  {
    hide *;
    Selects14(x);
    Row14(x);
  }

  lemma Undone15(x: bv8)
    requires x & 0xF0 == 0xF0
    ensures Inverse(x, Unaffine(Sbox(x) ^ 0x63))
  {
    hide *;
    Selects15(x);
    Row15(x);
  }

  lemma Quarter0(x: bv8)
    requires x & 0xC0 == 0x00
    ensures Inverse(x, Unaffine(Sbox(x) ^ 0x63))
  {
    hide *;
    if x & 0x30 == 0x00 {
      Undone0(x);
    } else if x & 0x30 == 0x10 {
      Undone1(x);
    } else if x & 0x30 == 0x20 {
      Undone2(x);
    } else {
      Undone3(x);
    }
  }

  lemma Quarter1(x: bv8)
    requires x & 0xC0 == 0x40
    ensures Inverse(x, Unaffine(Sbox(x) ^ 0x63))
  {
    hide *;
    if x & 0x30 == 0x00 {
      Undone4(x);
    } else if x & 0x30 == 0x10 {
      Undone5(x);
    } else if x & 0x30 == 0x20 {
      Undone6(x);
    } else {
      Undone7(x);
    }
  }

  lemma Quarter2(x: bv8)
    requires x & 0xC0 == 0x80
    ensures Inverse(x, Unaffine(Sbox(x) ^ 0x63))
  {
    hide *;
    if x & 0x30 == 0x00 {
      Undone8(x);
    } else if x & 0x30 == 0x10 {
      Undone9(x);
    } else if x & 0x30 == 0x20 {
      Undone10(x);
    } else {
      Undone11(x);
    }
  }

  lemma Quarter3(x: bv8)
    requires x & 0xC0 == 0xC0
    ensures Inverse(x, Unaffine(Sbox(x) ^ 0x63))
  {
    hide *;
    if x & 0x30 == 0x00 {
      Undone12(x);
    } else if x & 0x30 == 0x10 {
      Undone13(x);
    } else if x & 0x30 == 0x20 {
      Undone14(x);
    } else {
      Undone15(x);
    }
  }

  lemma UndoneIsInverse(x: bv8)
    ensures Inverse(x, Unaffine(Sbox(x) ^ 0x63))
  {
    hide *;
    if x & 0xC0 == 0x00 {
      Quarter0(x);
    } else if x & 0xC0 == 0x40 {
      Quarter1(x);
    } else if x & 0xC0 == 0x80 {
      Quarter2(x);
    } else {
      Quarter3(x);
    }
  }

  /** Section 5.1.1: the table maps x to the affine image of its inverse, plus 0x63. */
  lemma SboxMeaning(x: bv8)
    ensures exists y :: Inverse(x, y) && Sbox(x) == Affine(y) ^ 0x63
  {
    hide Inverse, Sbox, Affine, Unaffine;
    UndoneIsInverse(x);
    AffineBack(Sbox(x) ^ 0x63);
    Back(Sbox(x), 0x63);
    var y := Unaffine(Sbox(x) ^ 0x63);
    assert Inverse(x, y) && Sbox(x) == Affine(y) ^ 0x63;
  }

  lemma Back(a: bv8, b: bv8)
    ensures (a ^ b) ^ b == a
  {
  }
}
