/**
 * Arithmetic in GF(2^8) modulo the Rijndael polynomial x^8 + x^4 + x^3 + x + 1
 * (0x11B), as `gf256_mul` and `gf256_inv` of ops.c compute it.
 *
 * `Mul` is the recursive reading of the shift-and-add loop of `gf256_mul`; the
 * method `Gf256Mul` is that loop and is proved to compute `Mul` in at most eight
 * iterations. The field laws (commutativity, distributivity over XOR,
 * associativity, the identities of 0 and 1) are proved about `Mul`.
 */
module Field {
  import opened Bits

  /** `rijndael_polynomial` (ops.c:39). */
  const Polynomial: int := 0x11B

  /**
   * Multiplication by x: a left shift, reduced by the polynomial when the top bit
   * falls out (bit 8 of 0x11B cancels the bit shifted out, leaving 0x1B).
   */
  function XTime(a: Byte): Byte
  {
    if a < 0x80 then 2 * a else Xor(2 * a - 0x100, Polynomial - 0x100)
  }

  /**
   * The update of `Na` in `gf256_mul` as C evaluates it: the byte is promoted,
   * shifted left, XORed with the polynomial when `Na & 0x80` is set, and
   * truncated back to `uint8_t` by the assignment.
   */
  function NextNa(a: Byte): Byte
  {
    var v := (a as bv8) as bv16;
    ((if v & 0x80 != 0 then (v << 1) ^ (Polynomial as bv16) else v << 1) & 0xFF) as int
  }

  /** C `b & 1` on a `uint8_t`, as a condition. */
  function LowBit(b: Byte): bool
  {
    (b as bv8) & 1 != 0
  }

  /** C `b >> 1` on a `uint8_t`. */
  function Halve(b: Byte): Byte
  {
    ((b as bv8) >> 1) as int
  }

  // ---------------------------------------------------------------------------
  // Multiplication by x on bit-vectors

  /** Multiplication by x on eight bits, without a branch. */
  function Double(u: bv8): bv8
  {
    (u << 1) ^ ((u >> 7) * 0x1B)
  }

  lemma DoubleValue(u: bv8)
    ensures (u << 1) as int == (2 * (u as int)) % 0x100
    ensures (u >> 7) as int == (u as int) / 0x80
    ensures Double(u) == if u >> 7 == 0 then u << 1 else (u << 1) ^ 0x1B
  {
  }

  lemma XTimeIsDouble(a: Byte)
    ensures XTime(a) == Double(a as bv8) as int
  {
    var u := a as bv8;
    ValueOfBits(a);
    DoubleValue(u);
    if a >= 0x80 {
      ReducedIsDouble(a);
    }
  }

  lemma ReducedIsDouble(a: Byte)
    requires a >= 0x80
    requires ((a as bv8) << 1) as int == 2 * a - 0x100
    requires Double(a as bv8) == ((a as bv8) << 1) ^ 0x1B
    ensures Xor(2 * a - 0x100, 0x1B) == Double(a as bv8) as int
  {
    var v := (a as bv8) << 1;
    BitsOfByte(v);
    XorOfBits(2 * a - 0x100, 0x1B, v, 0x1B);
  }

  /** `Xor` of two bytes given by their bit patterns. */
  lemma XorOfBits(x: Byte, y: Byte, u: bv8, w: bv8)
    requires x as bv8 == u && y as bv8 == w
    ensures Xor(x, y) == (u ^ w) as int
  {
    XorIsBits(x, y);
  }

  lemma DoubleIsStep(u: bv8)
    ensures ((if (u as bv16) & 0x80 != 0 then ((u as bv16) << 1) ^ 0x11B else (u as bv16) << 1) & 0xFF) as bv8 == Double(u)
  {
  }

  /** The C update of `Na` is multiplication by x. */
  lemma NextNaIsXTime(a: Byte)
    ensures NextNa(a) == XTime(a)
  {
    DoubleIsStep(a as bv8);
    XTimeIsDouble(a);
  }

  lemma DoubleXor(u: bv8, w: bv8)
    ensures Double(u ^ w) == Double(u) ^ Double(w)
  {
  }

  lemma XTimeOfXor(a: Byte, c: Byte)
    ensures XTime(Xor(a, c)) == Double((a as bv8) ^ (c as bv8)) as int
  {
    XorIsBits(a, c);
    BitsOfByte((a as bv8) ^ (c as bv8));
    XTimeIsDouble(Xor(a, c));
  }

  lemma XorOfXTime(a: Byte, c: Byte)
    ensures Xor(XTime(a), XTime(c)) == (Double(a as bv8) ^ Double(c as bv8)) as int
  {
    XTimeIsDouble(a);
    XTimeIsDouble(c);
    XorIsBits(XTime(a), XTime(c));
    BitsOfByte(Double(a as bv8));
    BitsOfByte(Double(c as bv8));
  }

  lemma DoubleXorValue(u: bv8, w: bv8)
    ensures Double(u ^ w) as int == (Double(u) ^ Double(w)) as int
  {
    DoubleXor(u, w);
  }

  /** Multiplying by x is linear over XOR. */
  lemma XTimeXor(a: Byte, c: Byte)
    ensures XTime(Xor(a, c)) == Xor(XTime(a), XTime(c))
  {
    XTimeOfXor(a, c);
    XorOfXTime(a, c);
    DoubleXorValue(a as bv8, c as bv8);
  }

  /** `b & 1` and `b >> 1` are the remainder and quotient of `b` by 2. */
  lemma LowBitAndShift(b: Byte)
    ensures Halve(b) == b / 2
    ensures LowBit(b) <==> b % 2 == 1
  {
    ShiftIsHalf(b);
  }

  /** A byte is its low bit XOR the doubled rest. */
  lemma SplitByte(b: Byte)
    ensures b == Xor(b % 2, XTime(b / 2))
  {
    if b % 2 == 1 && b / 2 != 0 {
      assert XorNat(1, 2 * (b / 2)) == 2 * XorNat(0, b / 2) + 1;
    }
  }

  /**
   * The product computed by the loop of `gf256_mul`: add `Na` when the low bit of
   * `Nb` is set, then continue with `Na` multiplied by x and `Nb` shifted right.
   */
  function Mul(a: Byte, b: Byte): Byte
    decreases b
  {
    if b == 0 then 0 else Xor(if b % 2 == 1 then a else 0, Mul(XTime(a), b / 2))
  }

  // ---------------------------------------------------------------------------
  // The loop of gf256_mul

  /**
   * `gf256_mul` (ops.c:112-121): returns the product of `na` and `nb`, after at most
   * eight passes of the loop.
   */
  method Gf256Mul(na: Byte, nb: Byte) returns (prod: Byte, ghost steps: nat)
    ensures prod == Mul(na, nb)
    ensures steps <= 8
  {
    var a: Byte, b: Byte := na, nb;
    prod := 0;
    steps := 0;
    XorZero(Mul(na, nb));
    while b != 0
      invariant Xor(prod, Mul(a, b)) == Mul(na, nb)
      invariant steps <= 8 && b < Pow2(8 - steps)
      decreases b
    {
      MulLoopStep(prod, a, b);
      prod := Xor(prod, if LowBit(b) then a else 0);
      a := NextNa(a);
      b := Halve(b);
      steps := steps + 1;
    }
    XorZero(prod);
  }

  /** One pass of the loop of `gf256_mul` keeps `prod ^ Na * Nb` unchanged and halves `Nb`. */
  lemma MulLoopStep(prod: Byte, a: Byte, b: Byte)
    requires b != 0
    ensures Xor(Xor(prod, if LowBit(b) then a else 0), Mul(NextNa(a), Halve(b)))
         == Xor(prod, Mul(a, b))
    ensures Halve(b) == b / 2
  {
    LowBitAndShift(b);
    NextNaIsXTime(a);
    XorAssoc(prod, if b % 2 == 1 then a else 0, Mul(XTime(a), b / 2));
  }

  // ---------------------------------------------------------------------------
  // Field laws

  lemma XTimeZero()
    ensures XTime(0) == 0
  {
  }

  lemma {:induction false} MulZero(a: Byte)
    ensures Mul(a, 0) == 0
    ensures Mul(0, a) == 0
    decreases a
  {
    if a != 0 {
      XTimeZero();
      MulZero(a / 2);
      XorZero(0);
    }
  }

  lemma MulOneRight(a: Byte)
    ensures Mul(a, 1) == a
  {
    XorZero(a);
  }

  /** Multiplication distributes over XOR in its left argument. */
  lemma {:induction false} MulXorLeft(a: Byte, c: Byte, b: Byte)
    ensures Mul(Xor(a, c), b) == Xor(Mul(a, b), Mul(c, b))
    decreases b
  {
    if b != 0 {
      XTimeXor(a, c);
      MulXorLeft(XTime(a), XTime(c), b / 2);
      if b % 2 == 0 {
        XorZero(Xor(a, c));
        XorZero(0);
      }
      XorSwap(if b % 2 == 1 then a else 0, if b % 2 == 1 then c else 0,
              Mul(XTime(a), b / 2), Mul(XTime(c), b / 2));
      XorZero(Mul(XTime(Xor(a, c)), b / 2));
      XorZero(Mul(XTime(a), b / 2));
      XorZero(Mul(XTime(c), b / 2));
    } else {
      XorZero(0);
    }
  }

  /** Multiplying the left factor by x multiplies the product by x. */
  lemma {:induction false} MulXTimeLeft(a: Byte, b: Byte)
    ensures Mul(XTime(a), b) == XTime(Mul(a, b))
    decreases b
  {
    if b == 0 {
      XTimeZero();
    } else {
      MulXTimeLeft(XTime(a), b / 2);
      XTimeXor(if b % 2 == 1 then a else 0, Mul(XTime(a), b / 2));
      XTimeZero();
    }
  }

  /** Multiplication is commutative. */
  lemma {:induction false} MulComm(a: Byte, b: Byte)
    ensures Mul(a, b) == Mul(b, a)
    decreases b
  {
    if b == 0 {
      MulZero(a);
    } else {
      // Mul(a, b) == (b & 1 ? a : 0) ^ xtime(Mul(b / 2, a))
      MulXTimeLeft(a, b / 2);
      MulComm(a, b / 2);
      MulXTimeLeft(b / 2, a);
      // Mul(b, a) == Mul(b % 2, a) ^ Mul(xtime(b / 2), a)
      SplitByte(b);
      MulXorLeft(b % 2, XTime(b / 2), a);
      if b % 2 == 1 {
        MulOneRight(a);
        MulOneLeft(a);
      } else {
        MulZero(a);
      }
    }
  }

  /** `1` is also a left identity. */
  lemma {:induction false} MulOneLeft(a: Byte)
    ensures Mul(1, a) == a
    decreases a
  {
    if a != 0 {
      assert XTime(1) == 2;
      MulXTimeLeft(1, a / 2);
      MulOneLeft(a / 2);
      SplitByte(a);
      XorComm(a % 2, XTime(a / 2));
    }
  }

  /** Multiplication distributes over XOR in its right argument. */
  lemma MulXorRight(a: Byte, b: Byte, c: Byte)
    ensures Mul(a, Xor(b, c)) == Xor(Mul(a, b), Mul(a, c))
  {
    MulComm(a, Xor(b, c));
    MulXorLeft(b, c, a);
    MulComm(b, a);
    MulComm(c, a);
  }

  /** Multiplication is associative. */
  lemma {:induction false} MulAssoc(a: Byte, b: Byte, c: Byte)
    ensures Mul(Mul(a, b), c) == Mul(a, Mul(b, c))
    decreases b
  {
    if b == 0 {
      MulZero(c);
      MulZero(a);
    } else {
      var pick: Byte := if b % 2 == 1 then a else 0;
      // Mul(a, b) == pick ^ Mul(xtime(a), b / 2)
      MulXorLeft(pick, Mul(XTime(a), b / 2), c);
      MulAssoc(XTime(a), b / 2, c);
      MulXTimeLeft(a, Mul(b / 2, c));
      MulXTimeLeft(Mul(b / 2, c), a);
      MulComm(a, Mul(b / 2, c));
      MulComm(a, XTime(Mul(b / 2, c)));
      MulXTimeLeft(b / 2, c);
      // Mul(b, c) == Mul(b % 2, c) ^ Mul(xtime(b / 2), c)
      SplitByte(b);
      MulXorLeft(b % 2, XTime(b / 2), c);
      MulXorRight(a, Mul(b % 2, c), Mul(XTime(b / 2), c));
      if b % 2 == 1 {
        MulOneLeft(c);
      } else {
        MulZero(c);
        MulZero(a);
      }
    }
  }
}
