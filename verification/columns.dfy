/**
 * The column transform of `mix_columns` and `inv_mix_columns` (ops.c:272-311), on
 * one column of four bytes held as a `Word` (row 0 first).
 *
 * `mix_columns` multiplies the column by the circulant matrix with first row
 * {02, 03, 01, 01}, `inv_mix_columns` by the one with first row {0e, 0b, 0d, 09}.
 * That the second undoes the first is proved from the field laws: a row of the
 * inverse applied to the mixed column is the dot product of the column with a
 * combination of the rows of the forward matrix, and those combinations are the
 * rows of the identity matrix.
 */
module Columns {
  import opened Bits
  import opened Field
  import opened Words

  /** The four output bytes of `mix_columns` (ops.c:281-284), as C writes them: coefficient 01 is no product. */
  function MixColumn(c: Word): Word
  {
    Word(Xor(Xor(Xor(Mul(0x02, c.b0), Mul(0x03, c.b1)), c.b2), c.b3),
         Xor(Xor(Xor(c.b0, Mul(0x02, c.b1)), Mul(0x03, c.b2)), c.b3),
         Xor(Xor(Xor(c.b0, c.b1), Mul(0x02, c.b2)), Mul(0x03, c.b3)),
         Xor(Xor(Xor(Mul(0x03, c.b0), c.b1), c.b2), Mul(0x02, c.b3)))
  }

  /** The four output bytes of `inv_mix_columns` (ops.c:304-307). */
  function InvMixColumn(c: Word): Word
  {
    Word(Xor(Xor(Xor(Mul(0x0E, c.b0), Mul(0x0B, c.b1)), Mul(0x0D, c.b2)), Mul(0x09, c.b3)),
         Xor(Xor(Xor(Mul(0x09, c.b0), Mul(0x0E, c.b1)), Mul(0x0B, c.b2)), Mul(0x0D, c.b3)),
         Xor(Xor(Xor(Mul(0x0D, c.b0), Mul(0x09, c.b1)), Mul(0x0E, c.b2)), Mul(0x0B, c.b3)),
         Xor(Xor(Xor(Mul(0x0B, c.b0), Mul(0x0D, c.b1)), Mul(0x09, c.b2)), Mul(0x0E, c.b3)))
  }

  /** `inv_mix_columns` undoes `mix_columns` on every column. */
  lemma MixColumnRoundTrip(c: Word)
    ensures InvMixColumn(MixColumn(c)) == c
  {
    MixColumnRows(c);
    var d := MixColumn(c);

    InverseRow0(c, d);
    InverseRow1(c, d);
    InverseRow2(c, d);
    InverseRow3(c, d);
  }

  // ---------------------------------------------------------------------------
  // Dot products

  /** `a0*c0 ^ a1*c1 ^ a2*c2 ^ a3*c3`, summed left to right as the C expressions are. */
  function Dot(a: Word, c: Word): Byte
  {
    Xor(Xor(Xor(Mul(a.b0, c.b0), Mul(a.b1, c.b1)), Mul(a.b2, c.b2)), Mul(a.b3, c.b3))
  }

  /** Every coefficient of `m` multiplied by `s`. */
  function Scale(s: Byte, m: Word): Word
  {
    Word(Mul(s, m.b0), Mul(s, m.b1), Mul(s, m.b2), Mul(s, m.b3))
  }

  /** Regrouping two sums of four: `(x0^x1^x2^x3) ^ (y0^y1^y2^y3) == (x0^y0)^(x1^y1)^(x2^y2)^(x3^y3)`. */
  lemma XorRegroup(x0: Byte, x1: Byte, x2: Byte, x3: Byte, y0: Byte, y1: Byte, y2: Byte, y3: Byte)
    ensures Xor(Xor(Xor(Xor(x0, x1), x2), x3), Xor(Xor(Xor(y0, y1), y2), y3))
         == Xor(Xor(Xor(Xor(x0, y0), Xor(x1, y1)), Xor(x2, y2)), Xor(x3, y3))
  {
    XorSwap(Xor(Xor(x0, x1), x2), x3, Xor(Xor(y0, y1), y2), y3);
    XorSwap(Xor(x0, x1), x2, Xor(y0, y1), y2);
    XorSwap(x0, x1, y0, y1);
  }

  /** Dot products are linear in the coefficients. */
  lemma DotXor(x: Word, y: Word, c: Word)
    ensures Xor(Dot(x, c), Dot(y, c)) == Dot(XorWord(x, y), c)
  {
    MulXorLeft(x.b0, y.b0, c.b0);
    MulXorLeft(x.b1, y.b1, c.b1);
    MulXorLeft(x.b2, y.b2, c.b2);
    MulXorLeft(x.b3, y.b3, c.b3);
    XorRegroup(Mul(x.b0, c.b0), Mul(x.b1, c.b1), Mul(x.b2, c.b2), Mul(x.b3, c.b3),
               Mul(y.b0, c.b0), Mul(y.b1, c.b1), Mul(y.b2, c.b2), Mul(y.b3, c.b3));
  }

  /** A multiple of a dot product is the dot product with the scaled coefficients. */
  lemma DotScale(s: Byte, m: Word, c: Word)
    ensures Mul(s, Dot(m, c)) == Dot(Scale(s, m), c)
  {
    var p0, p1, p2, p3 := Mul(m.b0, c.b0), Mul(m.b1, c.b1), Mul(m.b2, c.b2), Mul(m.b3, c.b3);
    MulXorRight(s, Xor(Xor(p0, p1), p2), p3);
    MulXorRight(s, Xor(p0, p1), p2);
    MulXorRight(s, p0, p1);
    MulAssoc(s, m.b0, c.b0);
    MulAssoc(s, m.b1, c.b1);
    MulAssoc(s, m.b2, c.b2);
    MulAssoc(s, m.b3, c.b3);
  }

  /** The combination `a0*m0 ^ a1*m1 ^ a2*m2 ^ a3*m3` of four coefficient rows. */
  function Combine(a: Word, m0: Word, m1: Word, m2: Word, m3: Word): Word
  {
    XorWord(XorWord(XorWord(Scale(a.b0, m0), Scale(a.b1, m1)), Scale(a.b2, m2)), Scale(a.b3, m3))
  }

  /** A dot product of dot products: applying `a` to the column of `mi . c` is applying the combined row. */
  lemma DotOfDots(a: Word, m0: Word, m1: Word, m2: Word, m3: Word, c: Word)
    ensures Dot(a, Word(Dot(m0, c), Dot(m1, c), Dot(m2, c), Dot(m3, c))) == Dot(Combine(a, m0, m1, m2, m3), c)
  {
    DotScale(a.b0, m0, c);
    DotScale(a.b1, m1, c);
    DotScale(a.b2, m2, c);
    DotScale(a.b3, m3, c);
    DotXor(Scale(a.b0, m0), Scale(a.b1, m1), c);
    DotXor(XorWord(Scale(a.b0, m0), Scale(a.b1, m1)), Scale(a.b2, m2), c);
    DotXor(XorWord(XorWord(Scale(a.b0, m0), Scale(a.b1, m1)), Scale(a.b2, m2)), Scale(a.b3, m3), c);
  }

  /** The dot product with a row of the identity matrix picks one byte. */
  lemma DotUnit(c: Word)
    ensures Dot(Word(1, 0, 0, 0), c) == c.b0
    ensures Dot(Word(0, 1, 0, 0), c) == c.b1
    ensures Dot(Word(0, 0, 1, 0), c) == c.b2
    ensures Dot(Word(0, 0, 0, 1), c) == c.b3
  {
    MulOneLeft(c.b0);
    MulOneLeft(c.b1);
    MulOneLeft(c.b2);
    MulOneLeft(c.b3);
    MulZero(c.b0);
    MulZero(c.b1);
    MulZero(c.b2);
    MulZero(c.b3);
  }

  // ---------------------------------------------------------------------------
  // The two matrices

  /** The rows of the forward matrix. */
  const MixRow0: Word := Word(0x02, 0x03, 0x01, 0x01)
  const MixRow1: Word := Word(0x01, 0x02, 0x03, 0x01)
  const MixRow2: Word := Word(0x01, 0x01, 0x02, 0x03)
  const MixRow3: Word := Word(0x03, 0x01, 0x01, 0x02)
  /** The rows of the inverse matrix. */
  const InvMixRow0: Word := Word(0x0E, 0x0B, 0x0D, 0x09)
  const InvMixRow1: Word := Word(0x09, 0x0E, 0x0B, 0x0D)
  const InvMixRow2: Word := Word(0x0D, 0x09, 0x0E, 0x0B)
  const InvMixRow3: Word := Word(0x0B, 0x0D, 0x09, 0x0E)

  /** `mix_columns` computes the dot products of the column with the rows of the forward matrix. */
  lemma MixColumnRows(c: Word)
    ensures MixColumn(c) == Word(Dot(MixRow0, c), Dot(MixRow1, c), Dot(MixRow2, c), Dot(MixRow3, c))
  {
    MulOneLeft(c.b0);
    MulOneLeft(c.b1);
    MulOneLeft(c.b2);
    MulOneLeft(c.b3);
  }

  /** Row 0 of `inv_mix_columns` applied to the mixed column gives back byte 0. */
  lemma InverseRow0(c: Word, d: Word)
    requires d == Word(Dot(MixRow0, c), Dot(MixRow1, c), Dot(MixRow2, c), Dot(MixRow3, c))
    ensures InvMixColumn(d).b0 == c.b0
  {
    assert InvMixColumn(d).b0 == Dot(InvMixRow0, d);
    DotOfDots(InvMixRow0, MixRow0, MixRow1, MixRow2, MixRow3, c);
    CombineRow0();
    DotUnit(c);
  }

  /** Row 0 of the inverse matrix times the forward matrix is row 0 of the identity. */
  lemma CombineRow0()
    ensures Combine(InvMixRow0, MixRow0, MixRow1, MixRow2, MixRow3) == Word(1, 0, 0, 0)
  {
    Entry00();
    Entry01();
    Entry02();
    Entry03();
  }

  lemma Entry00()
    ensures Xor(Xor(Xor(Mul(0x0E, 0x02), Mul(0x0B, 0x01)), Mul(0x0D, 0x01)), Mul(0x09, 0x03)) == 1
  {
    ProductsOf09();
    ProductsOf0B();
    ProductsOf0D();
    ProductsOf0E();
    Xor1C0B();
    Xor170D();
    Xor1A1B();
  }

  lemma Entry01()
    ensures Xor(Xor(Xor(Mul(0x0E, 0x03), Mul(0x0B, 0x02)), Mul(0x0D, 0x01)), Mul(0x09, 0x01)) == 0
  {
    ProductsOf09();
    ProductsOf0B();
    ProductsOf0D();
    ProductsOf0E();
    Xor1216();
    Xor040D();
    Xor0909();
  }

  lemma Entry02()
    ensures Xor(Xor(Xor(Mul(0x0E, 0x01), Mul(0x0B, 0x03)), Mul(0x0D, 0x02)), Mul(0x09, 0x01)) == 0
  {
    ProductsOf09();
    ProductsOf0B();
    ProductsOf0D();
    ProductsOf0E();
    Xor0E1D();
    Xor131A();
    Xor0909();
  }

  lemma Entry03()
    ensures Xor(Xor(Xor(Mul(0x0E, 0x01), Mul(0x0B, 0x01)), Mul(0x0D, 0x03)), Mul(0x09, 0x02)) == 0
  {
    ProductsOf09();
    ProductsOf0B();
    ProductsOf0D();
    ProductsOf0E();
    Xor0E0B();
    Xor0517();
    Xor1212();
  }

  /** Row 1 of `inv_mix_columns` applied to the mixed column gives back byte 1. */
  lemma InverseRow1(c: Word, d: Word)
    requires d == Word(Dot(MixRow0, c), Dot(MixRow1, c), Dot(MixRow2, c), Dot(MixRow3, c))
    ensures InvMixColumn(d).b1 == c.b1
  {
    assert InvMixColumn(d).b1 == Dot(InvMixRow1, d);
    DotOfDots(InvMixRow1, MixRow0, MixRow1, MixRow2, MixRow3, c);
    CombineRow1();
    DotUnit(c);
  }

  /** Row 1 of the inverse matrix times the forward matrix is row 1 of the identity. */
  lemma CombineRow1()
    ensures Combine(InvMixRow1, MixRow0, MixRow1, MixRow2, MixRow3) == Word(0, 1, 0, 0)
  {
    Entry10();
    Entry11();
    Entry12();
    Entry13();
  }

  lemma Entry10()
    ensures Xor(Xor(Xor(Mul(0x09, 0x02), Mul(0x0E, 0x01)), Mul(0x0B, 0x01)), Mul(0x0D, 0x03)) == 0
  {
    ProductsOf09();
    ProductsOf0B();
    ProductsOf0D();
    ProductsOf0E();
    Xor120E();
    Xor1C0B();
    Xor1717();
  }

  lemma Entry11()
    ensures Xor(Xor(Xor(Mul(0x09, 0x03), Mul(0x0E, 0x02)), Mul(0x0B, 0x01)), Mul(0x0D, 0x01)) == 1
  {
    ProductsOf09();
    ProductsOf0B();
    ProductsOf0D();
    ProductsOf0E();
    Xor1B1C();
    Xor070B();
    Xor0C0D();
  }

  lemma Entry12()
    ensures Xor(Xor(Xor(Mul(0x09, 0x01), Mul(0x0E, 0x03)), Mul(0x0B, 0x02)), Mul(0x0D, 0x01)) == 0
  {
    ProductsOf09();
    ProductsOf0B();
    ProductsOf0D();
    ProductsOf0E();
    Xor0912();
    Xor1B16();
    Xor0D0D();
  }

  lemma Entry13()
    ensures Xor(Xor(Xor(Mul(0x09, 0x01), Mul(0x0E, 0x01)), Mul(0x0B, 0x03)), Mul(0x0D, 0x02)) == 0
  {
    ProductsOf09();
    ProductsOf0B();
    ProductsOf0D();
    ProductsOf0E();
    Xor090E();
    Xor071D();
    Xor1A1A();
  }

  /** Row 2 of `inv_mix_columns` applied to the mixed column gives back byte 2. */
  lemma InverseRow2(c: Word, d: Word)
    requires d == Word(Dot(MixRow0, c), Dot(MixRow1, c), Dot(MixRow2, c), Dot(MixRow3, c))
    ensures InvMixColumn(d).b2 == c.b2
  {
    assert InvMixColumn(d).b2 == Dot(InvMixRow2, d);
    DotOfDots(InvMixRow2, MixRow0, MixRow1, MixRow2, MixRow3, c);
    CombineRow2();
    DotUnit(c);
  }

  /** Row 2 of the inverse matrix times the forward matrix is row 2 of the identity. */
  lemma CombineRow2()
    ensures Combine(InvMixRow2, MixRow0, MixRow1, MixRow2, MixRow3) == Word(0, 0, 1, 0)
  {
    Entry20();
    Entry21();
    Entry22();
    Entry23();
  }

  lemma Entry20()
    ensures Xor(Xor(Xor(Mul(0x0D, 0x02), Mul(0x09, 0x01)), Mul(0x0E, 0x01)), Mul(0x0B, 0x03)) == 0
  {
    ProductsOf09();
    ProductsOf0B();
    ProductsOf0D();
    ProductsOf0E();
    Xor1A09();
    Xor130E();
    Xor1D1D();
  }

  lemma Entry21()
    ensures Xor(Xor(Xor(Mul(0x0D, 0x03), Mul(0x09, 0x02)), Mul(0x0E, 0x01)), Mul(0x0B, 0x01)) == 0
  {
    ProductsOf09();
    ProductsOf0B();
    ProductsOf0D();
    ProductsOf0E();
    Xor1712();
    Xor050E();
    Xor0B0B();
  }

  lemma Entry22()
    ensures Xor(Xor(Xor(Mul(0x0D, 0x01), Mul(0x09, 0x03)), Mul(0x0E, 0x02)), Mul(0x0B, 0x01)) == 1
  {
    ProductsOf09();
    ProductsOf0B();
    ProductsOf0D();
    ProductsOf0E();
    Xor0D1B();
    Xor161C();
    Xor0A0B();
  }

  lemma Entry23()
    ensures Xor(Xor(Xor(Mul(0x0D, 0x01), Mul(0x09, 0x01)), Mul(0x0E, 0x03)), Mul(0x0B, 0x02)) == 0
  {
    ProductsOf09();
    ProductsOf0B();
    ProductsOf0D();
    ProductsOf0E();
    Xor0D09();
    Xor0412();
    Xor1616();
  }

  /** Row 3 of `inv_mix_columns` applied to the mixed column gives back byte 3. */
  lemma InverseRow3(c: Word, d: Word)
    requires d == Word(Dot(MixRow0, c), Dot(MixRow1, c), Dot(MixRow2, c), Dot(MixRow3, c))
    ensures InvMixColumn(d).b3 == c.b3
  {
    assert InvMixColumn(d).b3 == Dot(InvMixRow3, d);
    DotOfDots(InvMixRow3, MixRow0, MixRow1, MixRow2, MixRow3, c);
    CombineRow3();
    DotUnit(c);
  }

  /** Row 3 of the inverse matrix times the forward matrix is row 3 of the identity. */
  lemma CombineRow3()
    ensures Combine(InvMixRow3, MixRow0, MixRow1, MixRow2, MixRow3) == Word(0, 0, 0, 1)
  {
    Entry30();
    Entry31();
    Entry32();
    Entry33();
  }

  lemma Entry30()
    ensures Xor(Xor(Xor(Mul(0x0B, 0x02), Mul(0x0D, 0x01)), Mul(0x09, 0x01)), Mul(0x0E, 0x03)) == 0
  {
    ProductsOf09();
    ProductsOf0B();
    ProductsOf0D();
    ProductsOf0E();
    Xor160D();
    Xor1B09();
    Xor1212();
  }

  lemma Entry31()
    ensures Xor(Xor(Xor(Mul(0x0B, 0x03), Mul(0x0D, 0x02)), Mul(0x09, 0x01)), Mul(0x0E, 0x01)) == 0
  {
    ProductsOf09();
    ProductsOf0B();
    ProductsOf0D();
    ProductsOf0E();
    Xor1D1A();
    Xor0709();
    Xor0E0E();
  }

  lemma Entry32()
    ensures Xor(Xor(Xor(Mul(0x0B, 0x01), Mul(0x0D, 0x03)), Mul(0x09, 0x02)), Mul(0x0E, 0x01)) == 0
  {
    ProductsOf09();
    ProductsOf0B();
    ProductsOf0D();
    ProductsOf0E();
    Xor0B17();
    Xor1C12();
    Xor0E0E();
  }

  lemma Entry33()
    ensures Xor(Xor(Xor(Mul(0x0B, 0x01), Mul(0x0D, 0x01)), Mul(0x09, 0x03)), Mul(0x0E, 0x02)) == 1
  {
    ProductsOf09();
    ProductsOf0B();
    ProductsOf0D();
    ProductsOf0E();
    Xor0B0D();
    Xor061B();
    Xor1D1C();
  }

  // ---------------------------------------------------------------------------
  // Products and sums of constants

  lemma ProductsOf0E()
    ensures Mul(0x0E, 0x01) == 0x0E
    ensures Mul(0x0E, 0x02) == 0x1C
    ensures Mul(0x0E, 0x03) == 0x12
  {
  }

  lemma ProductsOf0B()
    ensures Mul(0x0B, 0x01) == 0x0B
    ensures Mul(0x0B, 0x02) == 0x16
    ensures Mul(0x0B, 0x03) == 0x1D
  {
  }

  lemma ProductsOf0D()
    ensures Mul(0x0D, 0x01) == 0x0D
    ensures Mul(0x0D, 0x02) == 0x1A
    ensures Mul(0x0D, 0x03) == 0x17
  {
  }

  lemma ProductsOf09()
    ensures Mul(0x09, 0x01) == 0x09
    ensures Mul(0x09, 0x02) == 0x12
    ensures Mul(0x09, 0x03) == 0x1B
  {
  }

  lemma Xor040D()
    ensures Xor(0x04, 0x0D) == 0x09
  {
    assert XorNat(1, 3) == 2 * XorNat(0, 1) + 0;
    assert XorNat(2, 6) == 2 * XorNat(1, 3) + 0;
    assert XorNat(4, 13) == 2 * XorNat(2, 6) + 1;
  }

  lemma Xor0412()
    ensures Xor(0x04, 0x12) == 0x16
  {
    assert XorNat(1, 4) == 2 * XorNat(0, 2) + 1;
    assert XorNat(2, 9) == 2 * XorNat(1, 4) + 1;
    assert XorNat(4, 18) == 2 * XorNat(2, 9) + 0;
  }

  lemma Xor050E()
    ensures Xor(0x05, 0x0E) == 0x0B
  {
    assert XorNat(1, 3) == 2 * XorNat(0, 1) + 0;
    assert XorNat(2, 7) == 2 * XorNat(1, 3) + 1;
    assert XorNat(5, 14) == 2 * XorNat(2, 7) + 1;
  }

  lemma Xor0517()
    ensures Xor(0x05, 0x17) == 0x12
  {
    assert XorNat(1, 5) == 2 * XorNat(0, 2) + 0;
    assert XorNat(2, 11) == 2 * XorNat(1, 5) + 1;
    assert XorNat(5, 23) == 2 * XorNat(2, 11) + 0;
  }

  lemma Xor061B()
    ensures Xor(0x06, 0x1B) == 0x1D
  {
    assert XorNat(1, 6) == 2 * XorNat(0, 3) + 1;
    assert XorNat(3, 13) == 2 * XorNat(1, 6) + 0;
    assert XorNat(6, 27) == 2 * XorNat(3, 13) + 1;
  }

  lemma Xor0709()
    ensures Xor(0x07, 0x09) == 0x0E
  {
    assert XorNat(1, 2) == 2 * XorNat(0, 1) + 1;
    assert XorNat(3, 4) == 2 * XorNat(1, 2) + 1;
    assert XorNat(7, 9) == 2 * XorNat(3, 4) + 0;
  }

  lemma Xor070B()
    ensures Xor(0x07, 0x0B) == 0x0C
  {
    assert XorNat(1, 2) == 2 * XorNat(0, 1) + 1;
    assert XorNat(3, 5) == 2 * XorNat(1, 2) + 0;
    assert XorNat(7, 11) == 2 * XorNat(3, 5) + 0;
  }

  lemma Xor071D()
    ensures Xor(0x07, 0x1D) == 0x1A
  {
    assert XorNat(1, 7) == 2 * XorNat(0, 3) + 0;
    assert XorNat(3, 14) == 2 * XorNat(1, 7) + 1;
    assert XorNat(7, 29) == 2 * XorNat(3, 14) + 0;
  }

  lemma Xor0909()
    ensures Xor(0x09, 0x09) == 0x00
  {
    assert XorNat(1, 1) == 2 * XorNat(0, 0) + 0;
    assert XorNat(2, 2) == 2 * XorNat(1, 1) + 0;
    assert XorNat(4, 4) == 2 * XorNat(2, 2) + 0;
    assert XorNat(9, 9) == 2 * XorNat(4, 4) + 0;
  }

  lemma Xor090E()
    ensures Xor(0x09, 0x0E) == 0x07
  {
    assert XorNat(1, 1) == 2 * XorNat(0, 0) + 0;
    assert XorNat(2, 3) == 2 * XorNat(1, 1) + 1;
    assert XorNat(4, 7) == 2 * XorNat(2, 3) + 1;
    assert XorNat(9, 14) == 2 * XorNat(4, 7) + 1;
  }

  lemma Xor0912()
    ensures Xor(0x09, 0x12) == 0x1B
  {
    assert XorNat(1, 2) == 2 * XorNat(0, 1) + 1;
    assert XorNat(2, 4) == 2 * XorNat(1, 2) + 0;
    assert XorNat(4, 9) == 2 * XorNat(2, 4) + 1;
    assert XorNat(9, 18) == 2 * XorNat(4, 9) + 1;
  }

  lemma Xor0A0B()
    ensures Xor(0x0A, 0x0B) == 0x01
  {
    assert XorNat(1, 1) == 2 * XorNat(0, 0) + 0;
    assert XorNat(2, 2) == 2 * XorNat(1, 1) + 0;
    assert XorNat(5, 5) == 2 * XorNat(2, 2) + 0;
    assert XorNat(10, 11) == 2 * XorNat(5, 5) + 1;
  }

  lemma Xor0B0B()
    ensures Xor(0x0B, 0x0B) == 0x00
  {
    assert XorNat(1, 1) == 2 * XorNat(0, 0) + 0;
    assert XorNat(2, 2) == 2 * XorNat(1, 1) + 0;
    assert XorNat(5, 5) == 2 * XorNat(2, 2) + 0;
    assert XorNat(11, 11) == 2 * XorNat(5, 5) + 0;
  }

  lemma Xor0B0D()
    ensures Xor(0x0B, 0x0D) == 0x06
  {
    assert XorNat(1, 1) == 2 * XorNat(0, 0) + 0;
    assert XorNat(2, 3) == 2 * XorNat(1, 1) + 1;
    assert XorNat(5, 6) == 2 * XorNat(2, 3) + 1;
    assert XorNat(11, 13) == 2 * XorNat(5, 6) + 0;
  }

  lemma Xor0B17()
    ensures Xor(0x0B, 0x17) == 0x1C
  {
    assert XorNat(1, 2) == 2 * XorNat(0, 1) + 1;
    assert XorNat(2, 5) == 2 * XorNat(1, 2) + 1;
    assert XorNat(5, 11) == 2 * XorNat(2, 5) + 0;
    assert XorNat(11, 23) == 2 * XorNat(5, 11) + 0;
  }

  lemma Xor0C0D()
    ensures Xor(0x0C, 0x0D) == 0x01
  {
    assert XorNat(1, 1) == 2 * XorNat(0, 0) + 0;
    assert XorNat(3, 3) == 2 * XorNat(1, 1) + 0;
    assert XorNat(6, 6) == 2 * XorNat(3, 3) + 0;
    assert XorNat(12, 13) == 2 * XorNat(6, 6) + 1;
  }

  lemma Xor0D09()
    ensures Xor(0x0D, 0x09) == 0x04
  {
    assert XorNat(1, 1) == 2 * XorNat(0, 0) + 0;
    assert XorNat(3, 2) == 2 * XorNat(1, 1) + 1;
    assert XorNat(6, 4) == 2 * XorNat(3, 2) + 0;
    assert XorNat(13, 9) == 2 * XorNat(6, 4) + 0;
  }

  lemma Xor0D0D()
    ensures Xor(0x0D, 0x0D) == 0x00
  {
    assert XorNat(1, 1) == 2 * XorNat(0, 0) + 0;
    assert XorNat(3, 3) == 2 * XorNat(1, 1) + 0;
    assert XorNat(6, 6) == 2 * XorNat(3, 3) + 0;
    assert XorNat(13, 13) == 2 * XorNat(6, 6) + 0;
  }

  lemma Xor0D1B()
    ensures Xor(0x0D, 0x1B) == 0x16
  {
    assert XorNat(1, 3) == 2 * XorNat(0, 1) + 0;
    assert XorNat(3, 6) == 2 * XorNat(1, 3) + 1;
    assert XorNat(6, 13) == 2 * XorNat(3, 6) + 1;
    assert XorNat(13, 27) == 2 * XorNat(6, 13) + 0;
  }

  lemma Xor0E0B()
    ensures Xor(0x0E, 0x0B) == 0x05
  {
    assert XorNat(1, 1) == 2 * XorNat(0, 0) + 0;
    assert XorNat(3, 2) == 2 * XorNat(1, 1) + 1;
    assert XorNat(7, 5) == 2 * XorNat(3, 2) + 0;
    assert XorNat(14, 11) == 2 * XorNat(7, 5) + 1;
  }

  lemma Xor0E0E()
    ensures Xor(0x0E, 0x0E) == 0x00
  {
    assert XorNat(1, 1) == 2 * XorNat(0, 0) + 0;
    assert XorNat(3, 3) == 2 * XorNat(1, 1) + 0;
    assert XorNat(7, 7) == 2 * XorNat(3, 3) + 0;
    assert XorNat(14, 14) == 2 * XorNat(7, 7) + 0;
  }

  lemma Xor0E1D()
    ensures Xor(0x0E, 0x1D) == 0x13
  {
    assert XorNat(1, 3) == 2 * XorNat(0, 1) + 0;
    assert XorNat(3, 7) == 2 * XorNat(1, 3) + 0;
    assert XorNat(7, 14) == 2 * XorNat(3, 7) + 1;
    assert XorNat(14, 29) == 2 * XorNat(7, 14) + 1;
  }

  lemma Xor120E()
    ensures Xor(0x12, 0x0E) == 0x1C
  {
    assert XorNat(2, 1) == 2 * XorNat(1, 0) + 1;
    assert XorNat(4, 3) == 2 * XorNat(2, 1) + 1;
    assert XorNat(9, 7) == 2 * XorNat(4, 3) + 0;
    assert XorNat(18, 14) == 2 * XorNat(9, 7) + 0;
  }

  lemma Xor1212()
    ensures Xor(0x12, 0x12) == 0x00
  {
    assert XorNat(1, 1) == 2 * XorNat(0, 0) + 0;
    assert XorNat(2, 2) == 2 * XorNat(1, 1) + 0;
    assert XorNat(4, 4) == 2 * XorNat(2, 2) + 0;
    assert XorNat(9, 9) == 2 * XorNat(4, 4) + 0;
    assert XorNat(18, 18) == 2 * XorNat(9, 9) + 0;
  }

  lemma Xor1216()
    ensures Xor(0x12, 0x16) == 0x04
  {
    assert XorNat(1, 1) == 2 * XorNat(0, 0) + 0;
    assert XorNat(2, 2) == 2 * XorNat(1, 1) + 0;
    assert XorNat(4, 5) == 2 * XorNat(2, 2) + 1;
    assert XorNat(9, 11) == 2 * XorNat(4, 5) + 0;
    assert XorNat(18, 22) == 2 * XorNat(9, 11) + 0;
  }

  lemma Xor130E()
    ensures Xor(0x13, 0x0E) == 0x1D
  {
    assert XorNat(2, 1) == 2 * XorNat(1, 0) + 1;
    assert XorNat(4, 3) == 2 * XorNat(2, 1) + 1;
    assert XorNat(9, 7) == 2 * XorNat(4, 3) + 0;
    assert XorNat(19, 14) == 2 * XorNat(9, 7) + 1;
  }

  lemma Xor131A()
    ensures Xor(0x13, 0x1A) == 0x09
  {
    assert XorNat(1, 1) == 2 * XorNat(0, 0) + 0;
    assert XorNat(2, 3) == 2 * XorNat(1, 1) + 1;
    assert XorNat(4, 6) == 2 * XorNat(2, 3) + 0;
    assert XorNat(9, 13) == 2 * XorNat(4, 6) + 0;
    assert XorNat(19, 26) == 2 * XorNat(9, 13) + 1;
  }

  lemma Xor160D()
    ensures Xor(0x16, 0x0D) == 0x1B
  {
    assert XorNat(2, 1) == 2 * XorNat(1, 0) + 1;
    assert XorNat(5, 3) == 2 * XorNat(2, 1) + 0;
    assert XorNat(11, 6) == 2 * XorNat(5, 3) + 1;
    assert XorNat(22, 13) == 2 * XorNat(11, 6) + 1;
  }

  lemma Xor1616()
    ensures Xor(0x16, 0x16) == 0x00
  {
    assert XorNat(1, 1) == 2 * XorNat(0, 0) + 0;
    assert XorNat(2, 2) == 2 * XorNat(1, 1) + 0;
    assert XorNat(5, 5) == 2 * XorNat(2, 2) + 0;
    assert XorNat(11, 11) == 2 * XorNat(5, 5) + 0;
    assert XorNat(22, 22) == 2 * XorNat(11, 11) + 0;
  }

  lemma Xor161C()
    ensures Xor(0x16, 0x1C) == 0x0A
  {
    assert XorNat(1, 1) == 2 * XorNat(0, 0) + 0;
    assert XorNat(2, 3) == 2 * XorNat(1, 1) + 1;
    assert XorNat(5, 7) == 2 * XorNat(2, 3) + 0;
    assert XorNat(11, 14) == 2 * XorNat(5, 7) + 1;
    assert XorNat(22, 28) == 2 * XorNat(11, 14) + 0;
  }

  lemma Xor170D()
    ensures Xor(0x17, 0x0D) == 0x1A
  {
    assert XorNat(2, 1) == 2 * XorNat(1, 0) + 1;
    assert XorNat(5, 3) == 2 * XorNat(2, 1) + 0;
    assert XorNat(11, 6) == 2 * XorNat(5, 3) + 1;
    assert XorNat(23, 13) == 2 * XorNat(11, 6) + 0;
  }

  lemma Xor1712()
    ensures Xor(0x17, 0x12) == 0x05
  {
    assert XorNat(1, 1) == 2 * XorNat(0, 0) + 0;
    assert XorNat(2, 2) == 2 * XorNat(1, 1) + 0;
    assert XorNat(5, 4) == 2 * XorNat(2, 2) + 1;
    assert XorNat(11, 9) == 2 * XorNat(5, 4) + 0;
    assert XorNat(23, 18) == 2 * XorNat(11, 9) + 1;
  }

  lemma Xor1717()
    ensures Xor(0x17, 0x17) == 0x00
  {
    assert XorNat(1, 1) == 2 * XorNat(0, 0) + 0;
    assert XorNat(2, 2) == 2 * XorNat(1, 1) + 0;
    assert XorNat(5, 5) == 2 * XorNat(2, 2) + 0;
    assert XorNat(11, 11) == 2 * XorNat(5, 5) + 0;
    assert XorNat(23, 23) == 2 * XorNat(11, 11) + 0;
  }

  lemma Xor1A09()
    ensures Xor(0x1A, 0x09) == 0x13
  {
    assert XorNat(3, 1) == 2 * XorNat(1, 0) + 0;
    assert XorNat(6, 2) == 2 * XorNat(3, 1) + 0;
    assert XorNat(13, 4) == 2 * XorNat(6, 2) + 1;
    assert XorNat(26, 9) == 2 * XorNat(13, 4) + 1;
  }

  lemma Xor1A1A()
    ensures Xor(0x1A, 0x1A) == 0x00
  {
    assert XorNat(1, 1) == 2 * XorNat(0, 0) + 0;
    assert XorNat(3, 3) == 2 * XorNat(1, 1) + 0;
    assert XorNat(6, 6) == 2 * XorNat(3, 3) + 0;
    assert XorNat(13, 13) == 2 * XorNat(6, 6) + 0;
    assert XorNat(26, 26) == 2 * XorNat(13, 13) + 0;
  }

  lemma Xor1A1B()
    ensures Xor(0x1A, 0x1B) == 0x01
  {
    assert XorNat(1, 1) == 2 * XorNat(0, 0) + 0;
    assert XorNat(3, 3) == 2 * XorNat(1, 1) + 0;
    assert XorNat(6, 6) == 2 * XorNat(3, 3) + 0;
    assert XorNat(13, 13) == 2 * XorNat(6, 6) + 0;
    assert XorNat(26, 27) == 2 * XorNat(13, 13) + 1;
  }

  lemma Xor1B09()
    ensures Xor(0x1B, 0x09) == 0x12
  {
    assert XorNat(3, 1) == 2 * XorNat(1, 0) + 0;
    assert XorNat(6, 2) == 2 * XorNat(3, 1) + 0;
    assert XorNat(13, 4) == 2 * XorNat(6, 2) + 1;
    assert XorNat(27, 9) == 2 * XorNat(13, 4) + 0;
  }

  lemma Xor1B16()
    ensures Xor(0x1B, 0x16) == 0x0D
  {
    assert XorNat(1, 1) == 2 * XorNat(0, 0) + 0;
    assert XorNat(3, 2) == 2 * XorNat(1, 1) + 1;
    assert XorNat(6, 5) == 2 * XorNat(3, 2) + 1;
    assert XorNat(13, 11) == 2 * XorNat(6, 5) + 0;
    assert XorNat(27, 22) == 2 * XorNat(13, 11) + 1;
  }

  lemma Xor1B1C()
    ensures Xor(0x1B, 0x1C) == 0x07
  {
    assert XorNat(1, 1) == 2 * XorNat(0, 0) + 0;
    assert XorNat(3, 3) == 2 * XorNat(1, 1) + 0;
    assert XorNat(6, 7) == 2 * XorNat(3, 3) + 1;
    assert XorNat(13, 14) == 2 * XorNat(6, 7) + 1;
    assert XorNat(27, 28) == 2 * XorNat(13, 14) + 1;
  }

  lemma Xor1C0B()
    ensures Xor(0x1C, 0x0B) == 0x17
  {
    assert XorNat(3, 1) == 2 * XorNat(1, 0) + 0;
    assert XorNat(7, 2) == 2 * XorNat(3, 1) + 1;
    assert XorNat(14, 5) == 2 * XorNat(7, 2) + 1;
    assert XorNat(28, 11) == 2 * XorNat(14, 5) + 1;
  }

  lemma Xor1C12()
    ensures Xor(0x1C, 0x12) == 0x0E
  {
    assert XorNat(1, 1) == 2 * XorNat(0, 0) + 0;
    assert XorNat(3, 2) == 2 * XorNat(1, 1) + 1;
    assert XorNat(7, 4) == 2 * XorNat(3, 2) + 1;
    assert XorNat(14, 9) == 2 * XorNat(7, 4) + 1;
    assert XorNat(28, 18) == 2 * XorNat(14, 9) + 0;
  }

  lemma Xor1D1A()
    ensures Xor(0x1D, 0x1A) == 0x07
  {
    assert XorNat(1, 1) == 2 * XorNat(0, 0) + 0;
    assert XorNat(3, 3) == 2 * XorNat(1, 1) + 0;
    assert XorNat(7, 6) == 2 * XorNat(3, 3) + 1;
    assert XorNat(14, 13) == 2 * XorNat(7, 6) + 1;
    assert XorNat(29, 26) == 2 * XorNat(14, 13) + 1;
  }

  lemma Xor1D1C()
    ensures Xor(0x1D, 0x1C) == 0x01
  {
    assert XorNat(1, 1) == 2 * XorNat(0, 0) + 0;
    assert XorNat(3, 3) == 2 * XorNat(1, 1) + 0;
    assert XorNat(7, 7) == 2 * XorNat(3, 3) + 0;
    assert XorNat(14, 14) == 2 * XorNat(7, 7) + 0;
    assert XorNat(29, 28) == 2 * XorNat(14, 14) + 1;
  }

  lemma Xor1D1D()
    ensures Xor(0x1D, 0x1D) == 0x00
  {
    assert XorNat(1, 1) == 2 * XorNat(0, 0) + 0;
    assert XorNat(3, 3) == 2 * XorNat(1, 1) + 0;
    assert XorNat(7, 7) == 2 * XorNat(3, 3) + 0;
    assert XorNat(14, 14) == 2 * XorNat(7, 7) + 0;
    assert XorNat(29, 29) == 2 * XorNat(14, 14) + 0;
  }
}
