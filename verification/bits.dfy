/**
 * The unsigned values of the cipher and their exclusive or.
 *
 * A `uint8_t` is an integer in 0..255. Exclusive or is computed bit by bit from
 * the lowest bit, on plain integers; the lemma `XorIsBits` shows that it is C's `^`,
 * computed on the eight-bit vector. Facts about individual bits are proved on
 * bit-vectors and carried over through that lemma.
 */
module Bits {

  /** A `uint8_t`. */
  type Byte = x: int | 0 <= x < 0x100

  /** C `x++` on a `uint8_t`: 255 wraps around to 0. */
  function Increment(x: Byte): (r: Byte)
    ensures r == (x + 1) % 0x100
  {
    if x < 0xFF then x + 1 else 0
  }

  /** Truncation of a non-negative value to `uint8_t`: its remainder modulo 256. */
  function Wrap8(x: nat): (r: Byte)
    ensures r == x % 0x100
  {
    if x < 0x100 then x else Wrap8(x - 0x100)
  }

  /** 2^n. */
  function Pow2(n: nat): (p: nat)
    ensures 1 <= p
  {
    if n == 0 then 1 else 2 * Pow2(n - 1)
  }

  /** 2^n grows with n. */
  lemma {:induction false} Pow2Grows(m: nat, n: nat)
    requires m <= n
    ensures Pow2(m) <= Pow2(n)
    decreases n
  {
    if m < n {
      Pow2Grows(m, n - 1);
    }
  }

  /** Exclusive or of two naturals: the lowest bit, then the rest shifted right. */
  function XorNat(x: nat, y: nat): nat
    decreases x
  {
    if x == 0 then y
    else if y == 0 then x
    else 2 * XorNat(x / 2, y / 2) + (if x % 2 == y % 2 then 0 else 1)
  }

  /** Exclusive or of two n-bit values has n bits. */
  lemma {:induction false} XorBelow(x: nat, y: nat, n: nat)
    requires x < Pow2(n) && y < Pow2(n)
    ensures XorNat(x, y) < Pow2(n)
    decreases n
  {
    if x != 0 && y != 0 {
      XorBelow(x / 2, y / 2, n - 1);
    }
  }

  /** Exclusive or of two bytes is a byte. */
  lemma XorByteBelow(x: Byte, y: Byte)
    ensures XorNat(x, y) < 0x100
  {
    assert Pow2(8) == 0x100;
    XorBelow(x, y, 8);
  }

  /** C `^` on `uint8_t`. */
  function Xor(x: Byte, y: Byte): Byte
  {
    XorByteBelow(x, y);
    XorNat(x, y)
  }

  /** The lowest bit of `x ^ y`, and the remaining bits. */
  lemma XorHalf(x: nat, y: nat)
    ensures XorNat(x, y) / 2 == XorNat(x / 2, y / 2)
    ensures XorNat(x, y) % 2 == (if x % 2 == y % 2 then 0 else 1)
  {
  }

  // ---------------------------------------------------------------------------
  // XOR is a commutative group operation on bytes, with 0 as identity and every
  // byte its own inverse.

  lemma {:induction false} XorNatComm(x: nat, y: nat)
    ensures XorNat(x, y) == XorNat(y, x)
    decreases x
  {
    if x != 0 && y != 0 {
      XorNatComm(x / 2, y / 2);
    }
  }

  lemma {:induction false} XorNatAssoc(x: nat, y: nat, z: nat)
    ensures XorNat(XorNat(x, y), z) == XorNat(x, XorNat(y, z))
    decreases x + y + z
  {
    if x != 0 && y != 0 && z != 0 {
      XorHalf(x, y);
      XorHalf(y, z);
      XorNatAssoc(x / 2, y / 2, z / 2);
      XorHalf(XorNat(x, y), z);
      XorHalf(x, XorNat(y, z));
      XorHalf(XorNat(x / 2, y / 2), z / 2);
    }
  }

  lemma {:induction false} XorNatSelf(x: nat)
    ensures XorNat(x, x) == 0
    decreases x
  {
    if x != 0 {
      XorNatSelf(x / 2);
    }
  }

  lemma XorComm(x: Byte, y: Byte)
    ensures Xor(x, y) == Xor(y, x)
  {
    XorNatComm(x, y);
  }

  lemma XorAssoc(x: Byte, y: Byte, z: Byte)
    ensures Xor(Xor(x, y), z) == Xor(x, Xor(y, z))
  {
    XorNatAssoc(x, y, z);
  }

  lemma XorSelf(x: Byte)
    ensures Xor(x, x) == 0
  {
    XorNatSelf(x);
  }

  lemma XorZero(x: Byte)
    ensures Xor(x, 0) == x && Xor(0, x) == x
  {
  }

  /** Undoing an XOR: `(x ^ y) ^ y == x`. */
  lemma XorCancel(x: Byte, y: Byte)
    ensures Xor(Xor(x, y), y) == x
  {
    XorAssoc(x, y, y);
    XorSelf(y);
  }

  /** The exchange law `(x ^ y) ^ (z ^ w) == (x ^ z) ^ (y ^ w)`. */
  lemma XorSwap(x: Byte, y: Byte, z: Byte, w: Byte)
    ensures Xor(Xor(x, y), Xor(z, w)) == Xor(Xor(x, z), Xor(y, w))
  {
    XorAssoc(x, y, Xor(z, w));
    XorAssoc(y, z, w);
    XorComm(y, z);
    XorAssoc(z, y, w);
    XorAssoc(x, z, Xor(y, w));
  }

  // ---------------------------------------------------------------------------
  // From integers to eight-bit vectors and back

  lemma BitsOfByte(v: bv8)
    ensures (v as int) as bv8 == v
  {
  }

  lemma ValueOfBits(x: int)
    requires 0 <= x < 0x100
    ensures (x as bv8) as int == x
  {
    // Split on the two high bits: each quarter of the range is a short search for the solver.
    if x < 0x80 {
      if x < 0x40 { } else { }
    } else {
      if x < 0xC0 { } else { }
    }
  }

  lemma HalfBits(v: bv8)
    ensures v as int == 2 * ((v >> 1) as int) + ((v & 1) as int)
  {
  }

  /** `x / 2` and `x % 2` are C's `x >> 1` and `x & 1`. */
  lemma ShiftIsHalf(x: Byte)
    ensures ((x as bv8) >> 1) as int == x / 2
    ensures ((x as bv8) & 1) as int == x % 2
  {
    ValueOfBits(x);
    HalfBits(x as bv8);
  }

  lemma BitsOfHalf(x: Byte)
    ensures (x / 2) as bv8 == (x as bv8) >> 1
    ensures (x % 2) as bv8 == (x as bv8) & 1
  {
    ShiftIsHalf(x);
    BitsOfByte((x as bv8) >> 1);
    BitsOfByte((x as bv8) & 1);
  }

  lemma XorBitsHalf(u: bv8, w: bv8)
    ensures (u >> 1) ^ (w >> 1) == (u ^ w) >> 1
    ensures (u ^ w) & 1 == (u & 1) ^ (w & 1)
  {
  }

  lemma LowBitXor(x: Byte, y: Byte)
    ensures (if x % 2 == y % 2 then 0 else 1) == (((x as bv8) ^ (y as bv8)) & 1) as int
  {
    ShiftIsHalf(x);
    ShiftIsHalf(y);
    LowBitValues(x as bv8, y as bv8);
  }

  lemma LowBitValues(u: bv8, w: bv8)
    ensures (if (u & 1) as int == (w & 1) as int then 0 else 1) == ((u ^ w) & 1) as int
  {
  }

  lemma XorUnfold(x: Byte, y: Byte)
    requires x != 0 && y != 0
    ensures Xor(x, y) == 2 * Xor(x / 2, y / 2) + (if x % 2 == y % 2 then 0 else 1)
  {
  }

  lemma HalfOfXorBits(x: Byte, y: Byte)
    ensures ((x / 2) as bv8) ^ ((y / 2) as bv8) == ((x as bv8) ^ (y as bv8)) >> 1
  {
    BitsOfHalf(x);
    BitsOfHalf(y);
    XorBitsHalf(x as bv8, y as bv8);
  }

  lemma Recombine(v: int, h: int, b: int, z: bv8)
    requires v == 2 * h + b && h == (z >> 1) as int && b == (z & 1) as int
    ensures v == z as int
  {
    HalfBits(z);
  }

  /** The exclusive or computed on integers is C's `^` on the eight-bit vectors. */
  lemma {:induction false} XorIsBits(x: Byte, y: Byte)
    ensures Xor(x, y) == ((x as bv8) ^ (y as bv8)) as int
    decreases x
  {
    if x == 0 {
      ValueOfBits(y);
    } else if y == 0 {
      ValueOfBits(x);
    } else {
      XorIsBits(x / 2, y / 2);
      XorUnfold(x, y);
      HalfOfXorBits(x, y);
      LowBitXor(x, y);
      Recombine(Xor(x, y), Xor(x / 2, y / 2), if x % 2 == y % 2 then 0 else 1, (x as bv8) ^ (y as bv8));
    }
  }
}
