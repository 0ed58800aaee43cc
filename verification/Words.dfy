/** 64-bit machine words, and the nine-bit fields the page-table walk cuts them into.
    Bits 12 to 47 of a word are four nine-bit digits; read together they are a page
    frame number, read apart they are the four table indices of a virtual address. */
module Words {

  type Word = bv64

  const FRAME_LIMIT: nat := 0x10_0000_0000 // frames in a 48-bit physical space
  const PAGE_MASK: Word := 0xFFFF_FFFF_F000

  /** The nine-bit digit of value i. */
  function Digit(i: nat): bv9
    requires i < 512
  {
    if i == 0 then 0 else Digit(i - 1) + 1
  }

  lemma DigitSucc(b: bv9)
    requires b as nat < 511
    ensures (b + 1) as nat == b as nat + 1
  {
  }

  lemma {:induction false} DigitValue(i: nat)
    requires i < 512
    ensures Digit(i) as nat == i
  {
    if i != 0 {
      DigitValue(i - 1);
      DigitSucc(Digit(i - 1));
    }
  }

  lemma DigitInjective(i: nat, j: nat)
    requires i < 512 && j < 512 && Digit(i) == Digit(j)
    ensures i == j
  {
    DigitValue(i);
    DigitValue(j);
  }

  lemma DigitSurjective(b: bv9)
    ensures exists i: nat :: i < 512 && Digit(i) == b
  {
    var i := b as nat;
    DigitValue(i);
    assert (b as nat) as bv9 == b;
    assert (Digit(i) as nat) as bv9 == Digit(i);
  }

  /** The value of a nine-bit digit, as a table index. */
  function Value(b: bv9): (i: nat)
    ensures i < 512 && Digit(i) == b
  {
    DigitSurjective(b);
    assert forall i: nat, j: nat :: i < 512 && j < 512 && Digit(i) == b && Digit(j) == b ==> i == j by {
      forall i: nat, j: nat | i < 512 && j < 512 && Digit(i) == b && Digit(j) == b ensures i == j {
        DigitInjective(i, j);
      }
    }
    var i: nat :| i < 512 && Digit(i) == b;
    i
  }

  lemma ValueOfDigit(i: nat)
    requires i < 512
    ensures Value(Digit(i)) == i
  {
    DigitInjective(Value(Digit(i)), i);
  }

  /** Digit number level of w: level 0 is the most significant (bits 39 to 47). */
  function Bits(w: Word, level: nat): bv9
    requires level < 4
  {
    if level == 0 then ((w >> 39) & 0x1FF) as bv9
    else if level == 1 then ((w >> 30) & 0x1FF) as bv9
    else if level == 2 then ((w >> 21) & 0x1FF) as bv9
    else ((w >> 12) & 0x1FF) as bv9
  }

  /** The index a virtual address selects in a table of the given level
      (pml4_index, pdpt_index, pd_index and pt_index). */
  function Index(w: Word, level: nat): (i: nat)
    requires level < 4
    ensures i < 512
  {
    Value(Bits(w, level))
  }

  /** The frame number held in bits 12 to 47. */
  function Frame(w: Word): (n: nat)
    ensures n < FRAME_LIMIT
  {
    ((Index(w, 0) * 512 + Index(w, 1)) * 512 + Index(w, 2)) * 512 + Index(w, 3)
  }

  /** The indices are the four groups of nine bits from bit 39 down to bit 12, and the frame is the
      number that the groups make together. */
  lemma IndexMeaning(w: Word)
    ensures Index(w, 0) == (((w >> 39) & 0x1FF) as bv9) as nat && Index(w, 1) == (((w >> 30) & 0x1FF) as bv9) as nat
    ensures Index(w, 2) == (((w >> 21) & 0x1FF) as bv9) as nat && Index(w, 3) == (((w >> 12) & 0x1FF) as bv9) as nat
    ensures Frame(w) == Index(w, 0) * 0x800_0000 + Index(w, 1) * 0x4_0000 + Index(w, 2) * 0x200 + Index(w, 3)
  {
    forall l | 0 <= l < 4 ensures Index(w, l) == Bits(w, l) as nat {
      DigitValue(Index(w, l));
    }
    assert Index(w, 0) == Bits(w, 0) as nat && Index(w, 1) == Bits(w, 1) as nat;
    assert Index(w, 2) == Bits(w, 2) as nat && Index(w, 3) == Bits(w, 3) as nat;
  }

  function Pack(a: bv9, b: bv9, c: bv9, d: bv9): Word {
    ((a as Word) << 39) | ((b as Word) << 30) | ((c as Word) << 21) | ((d as Word) << 12)
  }

  /** The physical address of frame n, as a word. */
  function FrameWord(n: nat): Word
    requires n < FRAME_LIMIT
  {
    Pack(Digit(n / 0x800_0000), Digit(n / 0x4_0000 % 512), Digit(n / 512 % 512), Digit(n % 512))
  }

  lemma PackBits(a: bv9, b: bv9, c: bv9, d: bv9)
    ensures Bits(Pack(a, b, c, d), 0) == a && Bits(Pack(a, b, c, d), 1) == b
    ensures Bits(Pack(a, b, c, d), 2) == c && Bits(Pack(a, b, c, d), 3) == d
    ensures Pack(a, b, c, d) & !PAGE_MASK == 0
  {
  }

  lemma UnpackBits(w: Word)
    ensures Pack(Bits(w, 0), Bits(w, 1), Bits(w, 2), Bits(w, 3)) == w & PAGE_MASK
  {
  }

  lemma FrameOfPack(a: bv9, b: bv9, c: bv9, d: bv9)
    ensures Frame(Pack(a, b, c, d)) == ((Value(a) * 512 + Value(b)) * 512 + Value(c)) * 512 + Value(d)
  {
    PackBits(a, b, c, d);
  }

  lemma Recompose(n: nat)
    requires n < FRAME_LIMIT
    ensures ((n / 0x800_0000 * 512 + n / 0x4_0000 % 512) * 512 + n / 512 % 512) * 512 + n % 512 == n
  {
  }

  /** Frame and FrameWord are inverse on page-aligned 48-bit addresses. */
  lemma FrameRoundTrip(n: nat)
    requires n < FRAME_LIMIT
    ensures Frame(FrameWord(n)) == n
    ensures FrameWord(n) & !PAGE_MASK == 0
  {
    var a, b, c, d := n / 0x800_0000, n / 0x4_0000 % 512, n / 512 % 512, n % 512;
    FrameOfPack(Digit(a), Digit(b), Digit(c), Digit(d));
    ValueOfDigit(a);
    ValueOfDigit(b);
    ValueOfDigit(c);
    ValueOfDigit(d);
    Recompose(n);
    PackBits(Digit(a), Digit(b), Digit(c), Digit(d));
  }

  lemma Digits(a: nat, b: nat, c: nat, d: nat)
    requires a < 512 && b < 512 && c < 512 && d < 512
    ensures var n := ((a * 512 + b) * 512 + c) * 512 + d;
            n / 0x800_0000 == a && n / 0x4_0000 % 512 == b && n / 512 % 512 == c && n % 512 == d
  {
  }

  lemma WordRoundTrip(w: Word)
    ensures FrameWord(Frame(w)) == w & PAGE_MASK
  {
    Digits(Index(w, 0), Index(w, 1), Index(w, 2), Index(w, 3));
    UnpackBits(w);
  }

  /** Bits outside the mask do not disturb the frame number. */
  lemma FrameIgnoresFlags(w: Word, flags: Word)
    requires flags & PAGE_MASK == 0
    ensures Frame(w | flags) == Frame(w)
  {
    BitsIgnoreFlags(w, flags);
  }

  lemma BitsIgnoreFlags(w: Word, flags: Word)
    requires flags & PAGE_MASK == 0
    ensures Bits(w | flags, 0) == Bits(w, 0) && Bits(w | flags, 1) == Bits(w, 1)
    ensures Bits(w | flags, 2) == Bits(w, 2) && Bits(w | flags, 3) == Bits(w, 3)
  {
  }

  /** Two addresses with the same four indices lie on the same page, and conversely. */
  lemma IndicesNamePage(v: Word, w: Word)
    ensures (Index(v, 0) == Index(w, 0) && Index(v, 1) == Index(w, 1) &&
             Index(v, 2) == Index(w, 2) && Index(v, 3) == Index(w, 3)) <==> v & PAGE_MASK == w & PAGE_MASK
  {
    if Index(v, 0) == Index(w, 0) && Index(v, 1) == Index(w, 1) && Index(v, 2) == Index(w, 2) &&
        Index(v, 3) == Index(w, 3) {
      UnpackBits(v);
      UnpackBits(w);
    }
    if v & PAGE_MASK == w & PAGE_MASK {
      MaskKeepsBits(v);
      MaskKeepsBits(w);
    }
  }

  lemma MaskKeepsBits(w: Word)
    ensures Bits(w & PAGE_MASK, 0) == Bits(w, 0) && Bits(w & PAGE_MASK, 1) == Bits(w, 1)
    ensures Bits(w & PAGE_MASK, 2) == Bits(w, 2) && Bits(w & PAGE_MASK, 3) == Bits(w, 3)
  {
  }

  /** Two addresses share the first three indices when they lie in the same 2 MB. */
  lemma IndicesNameBigPage(v: Word, w: Word)
    ensures (Index(v, 0) == Index(w, 0) && Index(v, 1) == Index(w, 1) && Index(v, 2) == Index(w, 2))
            <==> BigPage(v) == BigPage(w)
  {
    hide Bits, BigPage;
    BigPageBits(v, w);
  }

  function BigPage(w: Word): Word { w & 0xFFFF_FFE0_0000 }

  lemma BigPageBits(v: Word, w: Word)
    ensures (Bits(v, 0) == Bits(w, 0) && Bits(v, 1) == Bits(w, 1) && Bits(v, 2) == Bits(w, 2))
            <==> BigPage(v) == BigPage(w)
  {
    hide Bits, Pack, BigPage;
    BigPageMask(v);
    BigPageMask(w);
  }

  lemma BigPageMask(w: Word)
    ensures Pack(Bits(w, 0), Bits(w, 1), Bits(w, 2), 0) == BigPage(w)
    ensures Bits(BigPage(w), 0) == Bits(w, 0) && Bits(BigPage(w), 1) == Bits(w, 1)
    ensures Bits(BigPage(w), 2) == Bits(w, 2)
  {
  }
}
