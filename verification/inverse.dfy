/**
 * The multiplicative inverse of `gf256_inv` (ops.c:128-140): a search over
 * 1..255 for the byte whose product with the argument is 1, and 0 for 0.
 *
 * The search stops because every non-zero byte has an inverse. That is proved
 * here from the fact that 3 (the polynomial x + 1) generates the multiplicative
 * group: its powers 3^0 .. 3^254 are computed on bit-vectors and cover every
 * non-zero byte, and 3^255 == 1, so 3^k has the inverse 3^(255 - k).
 */
module Inverse {
  import opened Bits
  import opened Field

  // ---------------------------------------------------------------------------
  // The search

  /** The first byte in `n..255` whose product with `a` is 1, or 0 if there is none. */
  function InvFrom(a: Byte, n: nat): Byte
    requires 1 <= n <= 0x100
    decreases 0x100 - n
  {
    if n == 0x100 then 0 else if Mul(a, n) == 1 then n else InvFrom(a, n + 1)
  }

  /** The value `gf256_inv` returns: 0 for 0, otherwise the least inverse. */
  function Inv(a: Byte): Byte
  {
    if a == 0 then 0 else InvFrom(a, 1)
  }

  /** The search finds the least inverse at or after `n`, when there is one. */
  lemma {:induction false} InvFromFinds(a: Byte, n: nat, b: Byte)
    requires 1 <= n <= b && Mul(a, b) == 1
    ensures n <= InvFrom(a, n) <= b
    ensures Mul(a, InvFrom(a, n)) == 1
    ensures forall m: Byte :: n <= m < InvFrom(a, n) ==> Mul(a, m) != 1
    decreases 0x100 - n
  {
    if Mul(a, n) != 1 {
      InvFromFinds(a, n + 1, b);
    }
  }

  /** `gf256_inv(0) == 0`. */
  lemma InvZero()
    ensures Inv(0) == 0
  {
  }

  /** Every non-zero byte times its inverse is 1, on either side; the inverse is not 0. */
  lemma InvIsInverse(a: Byte)
    requires a != 0
    ensures Mul(a, Inv(a)) == 1 && Mul(Inv(a), a) == 1
    ensures Inv(a) != 0
  {
    var b := InverseExists(a);
    MulZero(a);
    InvFromFinds(a, 1, b);
    MulComm(a, Inv(a));
  }

  /** The inverse is unique: whatever multiplies `a` to 1 is `Inv(a)`. */
  lemma InvUnique(a: Byte, b: Byte)
    requires Mul(a, b) == 1
    ensures b == Inv(a)
  {
    MulZero(b);
    InvIsInverse(a);
    // b == b * (a * inv(a)) == (b * a) * inv(a) == inv(a)
    MulOneRight(b);
    MulAssoc(b, a, Inv(a));
    MulComm(b, a);
    MulOneLeft(Inv(a));
  }

  /** Inverting twice gives back the byte. */
  lemma InvInvolutive(a: Byte)
    ensures Inv(Inv(a)) == a
  {
    if a != 0 {
      InvIsInverse(a);
      InvUnique(Inv(a), a);
    }
  }

  /** A byte is below the polynomial, so `% rijndael_polynomial` leaves it unchanged. */
  lemma BelowPolynomial(x: Byte)
    ensures x % Polynomial == x
  {
  }

  /**
   * `gf256_inv` (ops.c:128-140). The loop guard `Ninv < 0x11B` is always true of a
   * `uint8_t`, so the loop ends only at the `break`, which the existence of the
   * inverse guarantees before `Ninv` could wrap around.
   */
  method Gf256Inv(na: Byte) returns (r: Byte)
    ensures r == Inv(na)
    ensures na != 0 ==> Mul(na, r) == 1
  {
    if na == 0 {
      return na;
    }
    InvIsInverse(na);
    var ninv: Byte := 1;
    while true
      invariant 1 <= ninv && InvFrom(na, ninv) == Inv(na)
      decreases 0x100 - ninv
    {
      BelowPolynomial(na);
      BelowPolynomial(ninv);
      var p, _ := Gf256Mul(na % Polynomial, ninv % Polynomial);
      BelowPolynomial(p);
      if p % Polynomial == 1 {
        break;
      }
      // the inverse still lies ahead, so `Ninv++` does not wrap around
      assert ninv < 0xFF;
      var next := Increment(ninv);
      assert next == ninv + 1;
      ninv := next;
    }
    r := ninv;
  }

  // ---------------------------------------------------------------------------
  // Powers of the generator 3

  /** The generator x + 1. */
  const Generator: Byte := 3

  /** `3^k`, by repeated multiplication by x + 1. */
  function Power(k: nat): Byte
  {
    if k == 0 then 1 else Mul(Power(k - 1), Generator)
  }

  /** The same powers on bit-vectors, where their values can be computed. */
  function PowerBits(k: nat): bv8
  {
    if k == 0 then 1 else PowerBits(k - 1) ^ Double(PowerBits(k - 1))
  }

  lemma MulByThree(a: Byte)
    ensures Mul(a, 3) == Xor(a, XTime(a))
  {
    assert Mul(a, 3) == Xor(a, Mul(XTime(a), 1));
    MulOneRight(XTime(a));
  }

  lemma TripleBits(a: Byte)
    ensures Xor(a, XTime(a)) == ((a as bv8) ^ Double(a as bv8)) as int
  {
    XTimeIsDouble(a);
    XorIsBits(a, XTime(a));
    BitsOfByte(Double(a as bv8));
  }

  lemma {:induction false} PowerIsPowerBits(k: nat)
    ensures Power(k) == PowerBits(k) as int
  {
    if k != 0 {
      PowerIsPowerBits(k - 1);
      MulByThree(Power(k - 1));
      TripleBits(Power(k - 1));
      BitsOfByte(PowerBits(k - 1));
    }
  }

  lemma PowerStep(k: nat)
    requires k != 0
    ensures Power(k) == Mul(Power(k - 1), Generator)
  {
  }

  /** `3^(k - j) * 3^j == 3^k`. */
  lemma {:induction false} PowerSplit(k: nat, j: nat)
    requires j <= k
    ensures Mul(Power(k - j), Power(j)) == Power(k)
    decreases j
  {
    if j == 0 {
      MulOneRight(Power(k));
    } else {
      PowerSplit(k - 1, j - 1);
      assert (k - 1) - (j - 1) == k - j;
      PowerStep(j);
      PowerStep(k);
      MulAssoc(Power(k - j), Power(j - 1), Generator);
    }
  }

  /** Every non-zero byte has an inverse: for `a == 3^k` it is `3^(255 - k)`. */
  lemma InverseExists(a: Byte) returns (b: Byte)
    requires a != 0
    ensures Mul(a, b) == 1
  {
    var k := Logarithm(a);
    b := Power(255 - k);
    PowerSplit(255, 255 - k);
    PowerOrder();
  }

  /** Every non-zero byte is a power of 3. */
  lemma Logarithm(a: Byte) returns (k: nat)
    requires a != 0
    ensures k < 255 && Power(k) == a
  {
    if a < 0x40 {
      k := LogBelow40(a);
    } else if a < 0x80 {
      k := LogBelow80(a);
    } else if a < 0xC0 {
      k := LogBelowC0(a);
    } else {
      k := LogBelow100(a);
    }
  }

  /** The order of 3 is 255: `3^255 == 1`. */
  lemma PowerOrder()
    ensures Power(255) == 1
  {
    PowersFrom0();
    PowersFrom64();
    PowersFrom128();
    PowersFrom192();
    PowerIsPowerBits(255);
  }

  /** The values of `3^0` .. `3^63`. */
  lemma PowersFrom0()
    ensures PowerBits(0) == 0x01
    ensures PowerBits(1) == 0x03
    ensures PowerBits(2) == 0x05
    ensures PowerBits(3) == 0x0F
    ensures PowerBits(4) == 0x11
    ensures PowerBits(5) == 0x33
    ensures PowerBits(6) == 0x55
    ensures PowerBits(7) == 0xFF
    ensures PowerBits(8) == 0x1A
    ensures PowerBits(9) == 0x2E
    ensures PowerBits(10) == 0x72
    ensures PowerBits(11) == 0x96
    ensures PowerBits(12) == 0xA1
    ensures PowerBits(13) == 0xF8
    ensures PowerBits(14) == 0x13
    ensures PowerBits(15) == 0x35
    ensures PowerBits(16) == 0x5F
    ensures PowerBits(17) == 0xE1
    ensures PowerBits(18) == 0x38
    ensures PowerBits(19) == 0x48
    ensures PowerBits(20) == 0xD8
    ensures PowerBits(21) == 0x73
    ensures PowerBits(22) == 0x95
    ensures PowerBits(23) == 0xA4
    ensures PowerBits(24) == 0xF7
    ensures PowerBits(25) == 0x02
    ensures PowerBits(26) == 0x06
    ensures PowerBits(27) == 0x0A
    ensures PowerBits(28) == 0x1E
    ensures PowerBits(29) == 0x22
    ensures PowerBits(30) == 0x66
    ensures PowerBits(31) == 0xAA
    ensures PowerBits(32) == 0xE5
    ensures PowerBits(33) == 0x34
    ensures PowerBits(34) == 0x5C
    ensures PowerBits(35) == 0xE4
    ensures PowerBits(36) == 0x37
    ensures PowerBits(37) == 0x59
    ensures PowerBits(38) == 0xEB
    ensures PowerBits(39) == 0x26
    ensures PowerBits(40) == 0x6A
    ensures PowerBits(41) == 0xBE
    ensures PowerBits(42) == 0xD9
    ensures PowerBits(43) == 0x70
    ensures PowerBits(44) == 0x90
    ensures PowerBits(45) == 0xAB
    ensures PowerBits(46) == 0xE6
    ensures PowerBits(47) == 0x31
    ensures PowerBits(48) == 0x53
    ensures PowerBits(49) == 0xF5
    ensures PowerBits(50) == 0x04
    ensures PowerBits(51) == 0x0C
    ensures PowerBits(52) == 0x14
    ensures PowerBits(53) == 0x3C
    ensures PowerBits(54) == 0x44
    ensures PowerBits(55) == 0xCC
    ensures PowerBits(56) == 0x4F
    ensures PowerBits(57) == 0xD1
    ensures PowerBits(58) == 0x68
    ensures PowerBits(59) == 0xB8
    ensures PowerBits(60) == 0xD3
    ensures PowerBits(61) == 0x6E
    ensures PowerBits(62) == 0xB2
    ensures PowerBits(63) == 0xCD
  {
    assert PowerBits(0) == 0x01;
    assert PowerBits(1) == 0x03;
    assert PowerBits(2) == 0x05;
    assert PowerBits(3) == 0x0F;
    assert PowerBits(4) == 0x11;
    assert PowerBits(5) == 0x33;
    assert PowerBits(6) == 0x55;
    assert PowerBits(7) == 0xFF;
    assert PowerBits(8) == 0x1A;
    assert PowerBits(9) == 0x2E;
    assert PowerBits(10) == 0x72;
    assert PowerBits(11) == 0x96;
    assert PowerBits(12) == 0xA1;
    assert PowerBits(13) == 0xF8;
    assert PowerBits(14) == 0x13;
    assert PowerBits(15) == 0x35;
    assert PowerBits(16) == 0x5F;
    assert PowerBits(17) == 0xE1;
    assert PowerBits(18) == 0x38;
    assert PowerBits(19) == 0x48;
    assert PowerBits(20) == 0xD8;
    assert PowerBits(21) == 0x73;
    assert PowerBits(22) == 0x95;
    assert PowerBits(23) == 0xA4;
    assert PowerBits(24) == 0xF7;
    assert PowerBits(25) == 0x02;
    assert PowerBits(26) == 0x06;
    assert PowerBits(27) == 0x0A;
    assert PowerBits(28) == 0x1E;
    assert PowerBits(29) == 0x22;
    assert PowerBits(30) == 0x66;
    assert PowerBits(31) == 0xAA;
    assert PowerBits(32) == 0xE5;
    assert PowerBits(33) == 0x34;
    assert PowerBits(34) == 0x5C;
    assert PowerBits(35) == 0xE4;
    assert PowerBits(36) == 0x37;
    assert PowerBits(37) == 0x59;
    assert PowerBits(38) == 0xEB;
    assert PowerBits(39) == 0x26;
    assert PowerBits(40) == 0x6A;
    assert PowerBits(41) == 0xBE;
    assert PowerBits(42) == 0xD9;
    assert PowerBits(43) == 0x70;
    assert PowerBits(44) == 0x90;
    assert PowerBits(45) == 0xAB;
    assert PowerBits(46) == 0xE6;
    assert PowerBits(47) == 0x31;
    assert PowerBits(48) == 0x53;
    assert PowerBits(49) == 0xF5;
    assert PowerBits(50) == 0x04;
    assert PowerBits(51) == 0x0C;
    assert PowerBits(52) == 0x14;
    assert PowerBits(53) == 0x3C;
    assert PowerBits(54) == 0x44;
    assert PowerBits(55) == 0xCC;
    assert PowerBits(56) == 0x4F;
    assert PowerBits(57) == 0xD1;
    assert PowerBits(58) == 0x68;
    assert PowerBits(59) == 0xB8;
    assert PowerBits(60) == 0xD3;
    assert PowerBits(61) == 0x6E;
    assert PowerBits(62) == 0xB2;
  }

  /** The values of `3^64` .. `3^127`. */
  lemma PowersFrom64()
    requires PowerBits(63) == 0xCD
    ensures PowerBits(64) == 0x4C
    ensures PowerBits(65) == 0xD4
    ensures PowerBits(66) == 0x67
    ensures PowerBits(67) == 0xA9
    ensures PowerBits(68) == 0xE0
    ensures PowerBits(69) == 0x3B
    ensures PowerBits(70) == 0x4D
    ensures PowerBits(71) == 0xD7
    ensures PowerBits(72) == 0x62
    ensures PowerBits(73) == 0xA6
    ensures PowerBits(74) == 0xF1
    ensures PowerBits(75) == 0x08
    ensures PowerBits(76) == 0x18
    ensures PowerBits(77) == 0x28
    ensures PowerBits(78) == 0x78
    ensures PowerBits(79) == 0x88
    ensures PowerBits(80) == 0x83
    ensures PowerBits(81) == 0x9E
    ensures PowerBits(82) == 0xB9
    ensures PowerBits(83) == 0xD0
    ensures PowerBits(84) == 0x6B
    ensures PowerBits(85) == 0xBD
    ensures PowerBits(86) == 0xDC
    ensures PowerBits(87) == 0x7F
    ensures PowerBits(88) == 0x81
    ensures PowerBits(89) == 0x98
    ensures PowerBits(90) == 0xB3
    ensures PowerBits(91) == 0xCE
    ensures PowerBits(92) == 0x49
    ensures PowerBits(93) == 0xDB
    ensures PowerBits(94) == 0x76
    ensures PowerBits(95) == 0x9A
    ensures PowerBits(96) == 0xB5
    ensures PowerBits(97) == 0xC4
    ensures PowerBits(98) == 0x57
    ensures PowerBits(99) == 0xF9
    ensures PowerBits(100) == 0x10
    ensures PowerBits(101) == 0x30
    ensures PowerBits(102) == 0x50
    ensures PowerBits(103) == 0xF0
    ensures PowerBits(104) == 0x0B
    ensures PowerBits(105) == 0x1D
    ensures PowerBits(106) == 0x27
    ensures PowerBits(107) == 0x69
    ensures PowerBits(108) == 0xBB
    ensures PowerBits(109) == 0xD6
    ensures PowerBits(110) == 0x61
    ensures PowerBits(111) == 0xA3
    ensures PowerBits(112) == 0xFE
    ensures PowerBits(113) == 0x19
    ensures PowerBits(114) == 0x2B
    ensures PowerBits(115) == 0x7D
    ensures PowerBits(116) == 0x87
    ensures PowerBits(117) == 0x92
    ensures PowerBits(118) == 0xAD
    ensures PowerBits(119) == 0xEC
    ensures PowerBits(120) == 0x2F
    ensures PowerBits(121) == 0x71
    ensures PowerBits(122) == 0x93
    ensures PowerBits(123) == 0xAE
    ensures PowerBits(124) == 0xE9
    ensures PowerBits(125) == 0x20
    ensures PowerBits(126) == 0x60
    ensures PowerBits(127) == 0xA0
  {
    assert PowerBits(64) == 0x4C;
    assert PowerBits(65) == 0xD4;
    assert PowerBits(66) == 0x67;
    assert PowerBits(67) == 0xA9;
    assert PowerBits(68) == 0xE0;
    assert PowerBits(69) == 0x3B;
    assert PowerBits(70) == 0x4D;
    assert PowerBits(71) == 0xD7;
    assert PowerBits(72) == 0x62;
    assert PowerBits(73) == 0xA6;
    assert PowerBits(74) == 0xF1;
    assert PowerBits(75) == 0x08;
    assert PowerBits(76) == 0x18;
    assert PowerBits(77) == 0x28;
    assert PowerBits(78) == 0x78;
    assert PowerBits(79) == 0x88;
    assert PowerBits(80) == 0x83;
    assert PowerBits(81) == 0x9E;
    assert PowerBits(82) == 0xB9;
    assert PowerBits(83) == 0xD0;
    assert PowerBits(84) == 0x6B;
    assert PowerBits(85) == 0xBD;
    assert PowerBits(86) == 0xDC;
    assert PowerBits(87) == 0x7F;
    assert PowerBits(88) == 0x81;
    assert PowerBits(89) == 0x98;
    assert PowerBits(90) == 0xB3;
    assert PowerBits(91) == 0xCE;
    assert PowerBits(92) == 0x49;
    assert PowerBits(93) == 0xDB;
    assert PowerBits(94) == 0x76;
    assert PowerBits(95) == 0x9A;
    assert PowerBits(96) == 0xB5;
    assert PowerBits(97) == 0xC4;
    assert PowerBits(98) == 0x57;
    assert PowerBits(99) == 0xF9;
    assert PowerBits(100) == 0x10;
    assert PowerBits(101) == 0x30;
    assert PowerBits(102) == 0x50;
    assert PowerBits(103) == 0xF0;
    assert PowerBits(104) == 0x0B;
    assert PowerBits(105) == 0x1D;
    assert PowerBits(106) == 0x27;
    assert PowerBits(107) == 0x69;
    assert PowerBits(108) == 0xBB;
    assert PowerBits(109) == 0xD6;
    assert PowerBits(110) == 0x61;
    assert PowerBits(111) == 0xA3;
    assert PowerBits(112) == 0xFE;
    assert PowerBits(113) == 0x19;
    assert PowerBits(114) == 0x2B;
    assert PowerBits(115) == 0x7D;
    assert PowerBits(116) == 0x87;
    assert PowerBits(117) == 0x92;
    assert PowerBits(118) == 0xAD;
    assert PowerBits(119) == 0xEC;
    assert PowerBits(120) == 0x2F;
    assert PowerBits(121) == 0x71;
    assert PowerBits(122) == 0x93;
    assert PowerBits(123) == 0xAE;
    assert PowerBits(124) == 0xE9;
    assert PowerBits(125) == 0x20;
    assert PowerBits(126) == 0x60;
  }

  /** The values of `3^128` .. `3^191`. */
  lemma PowersFrom128()
    requires PowerBits(127) == 0xA0
    ensures PowerBits(128) == 0xFB
    ensures PowerBits(129) == 0x16
    ensures PowerBits(130) == 0x3A
    ensures PowerBits(131) == 0x4E
    ensures PowerBits(132) == 0xD2
    ensures PowerBits(133) == 0x6D
    ensures PowerBits(134) == 0xB7
    ensures PowerBits(135) == 0xC2
    ensures PowerBits(136) == 0x5D
    ensures PowerBits(137) == 0xE7
    ensures PowerBits(138) == 0x32
    ensures PowerBits(139) == 0x56
    ensures PowerBits(140) == 0xFA
    ensures PowerBits(141) == 0x15
    ensures PowerBits(142) == 0x3F
    ensures PowerBits(143) == 0x41
    ensures PowerBits(144) == 0xC3
    ensures PowerBits(145) == 0x5E
    ensures PowerBits(146) == 0xE2
    ensures PowerBits(147) == 0x3D
    ensures PowerBits(148) == 0x47
    ensures PowerBits(149) == 0xC9
    ensures PowerBits(150) == 0x40
    ensures PowerBits(151) == 0xC0
    ensures PowerBits(152) == 0x5B
    ensures PowerBits(153) == 0xED
    ensures PowerBits(154) == 0x2C
    ensures PowerBits(155) == 0x74
    ensures PowerBits(156) == 0x9C
    ensures PowerBits(157) == 0xBF
    ensures PowerBits(158) == 0xDA
    ensures PowerBits(159) == 0x75
    ensures PowerBits(160) == 0x9F
    ensures PowerBits(161) == 0xBA
    ensures PowerBits(162) == 0xD5
    ensures PowerBits(163) == 0x64
    ensures PowerBits(164) == 0xAC
    ensures PowerBits(165) == 0xEF
    ensures PowerBits(166) == 0x2A
    ensures PowerBits(167) == 0x7E
    ensures PowerBits(168) == 0x82
    ensures PowerBits(169) == 0x9D
    ensures PowerBits(170) == 0xBC
    ensures PowerBits(171) == 0xDF
    ensures PowerBits(172) == 0x7A
    ensures PowerBits(173) == 0x8E
    ensures PowerBits(174) == 0x89
    ensures PowerBits(175) == 0x80
    ensures PowerBits(176) == 0x9B
    ensures PowerBits(177) == 0xB6
    ensures PowerBits(178) == 0xC1
    ensures PowerBits(179) == 0x58
    ensures PowerBits(180) == 0xE8
    ensures PowerBits(181) == 0x23
    ensures PowerBits(182) == 0x65
    ensures PowerBits(183) == 0xAF
    ensures PowerBits(184) == 0xEA
    ensures PowerBits(185) == 0x25
    ensures PowerBits(186) == 0x6F
    ensures PowerBits(187) == 0xB1
    ensures PowerBits(188) == 0xC8
    ensures PowerBits(189) == 0x43
    ensures PowerBits(190) == 0xC5
    ensures PowerBits(191) == 0x54
  {
    assert PowerBits(128) == 0xFB;
    assert PowerBits(129) == 0x16;
    assert PowerBits(130) == 0x3A;
    assert PowerBits(131) == 0x4E;
    assert PowerBits(132) == 0xD2;
    assert PowerBits(133) == 0x6D;
    assert PowerBits(134) == 0xB7;
    assert PowerBits(135) == 0xC2;
    assert PowerBits(136) == 0x5D;
    assert PowerBits(137) == 0xE7;
    assert PowerBits(138) == 0x32;
    assert PowerBits(139) == 0x56;
    assert PowerBits(140) == 0xFA;
    assert PowerBits(141) == 0x15;
    assert PowerBits(142) == 0x3F;
    assert PowerBits(143) == 0x41;
    assert PowerBits(144) == 0xC3;
    assert PowerBits(145) == 0x5E;
    assert PowerBits(146) == 0xE2;
    assert PowerBits(147) == 0x3D;
    assert PowerBits(148) == 0x47;
    assert PowerBits(149) == 0xC9;
    assert PowerBits(150) == 0x40;
    assert PowerBits(151) == 0xC0;
    assert PowerBits(152) == 0x5B;
    assert PowerBits(153) == 0xED;
    assert PowerBits(154) == 0x2C;
    assert PowerBits(155) == 0x74;
    assert PowerBits(156) == 0x9C;
    assert PowerBits(157) == 0xBF;
    assert PowerBits(158) == 0xDA;
    assert PowerBits(159) == 0x75;
    assert PowerBits(160) == 0x9F;
    assert PowerBits(161) == 0xBA;
    assert PowerBits(162) == 0xD5;
    assert PowerBits(163) == 0x64;
    assert PowerBits(164) == 0xAC;
    assert PowerBits(165) == 0xEF;
    assert PowerBits(166) == 0x2A;
    assert PowerBits(167) == 0x7E;
    assert PowerBits(168) == 0x82;
    assert PowerBits(169) == 0x9D;
    assert PowerBits(170) == 0xBC;
    assert PowerBits(171) == 0xDF;
    assert PowerBits(172) == 0x7A;
    assert PowerBits(173) == 0x8E;
    assert PowerBits(174) == 0x89;
    assert PowerBits(175) == 0x80;
    assert PowerBits(176) == 0x9B;
    assert PowerBits(177) == 0xB6;
    assert PowerBits(178) == 0xC1;
    assert PowerBits(179) == 0x58;
    assert PowerBits(180) == 0xE8;
    assert PowerBits(181) == 0x23;
    assert PowerBits(182) == 0x65;
    assert PowerBits(183) == 0xAF;
    assert PowerBits(184) == 0xEA;
    assert PowerBits(185) == 0x25;
    assert PowerBits(186) == 0x6F;
    assert PowerBits(187) == 0xB1;
    assert PowerBits(188) == 0xC8;
    assert PowerBits(189) == 0x43;
    assert PowerBits(190) == 0xC5;
  }

  /** The values of `3^192` .. `3^255`. */
  lemma PowersFrom192()
    requires PowerBits(191) == 0x54
    ensures PowerBits(192) == 0xFC
    ensures PowerBits(193) == 0x1F
    ensures PowerBits(194) == 0x21
    ensures PowerBits(195) == 0x63
    ensures PowerBits(196) == 0xA5
    ensures PowerBits(197) == 0xF4
    ensures PowerBits(198) == 0x07
    ensures PowerBits(199) == 0x09
    ensures PowerBits(200) == 0x1B
    ensures PowerBits(201) == 0x2D
    ensures PowerBits(202) == 0x77
    ensures PowerBits(203) == 0x99
    ensures PowerBits(204) == 0xB0
    ensures PowerBits(205) == 0xCB
    ensures PowerBits(206) == 0x46
    ensures PowerBits(207) == 0xCA
    ensures PowerBits(208) == 0x45
    ensures PowerBits(209) == 0xCF
    ensures PowerBits(210) == 0x4A
    ensures PowerBits(211) == 0xDE
    ensures PowerBits(212) == 0x79
    ensures PowerBits(213) == 0x8B
    ensures PowerBits(214) == 0x86
    ensures PowerBits(215) == 0x91
    ensures PowerBits(216) == 0xA8
    ensures PowerBits(217) == 0xE3
    ensures PowerBits(218) == 0x3E
    ensures PowerBits(219) == 0x42
    ensures PowerBits(220) == 0xC6
    ensures PowerBits(221) == 0x51
    ensures PowerBits(222) == 0xF3
    ensures PowerBits(223) == 0x0E
    ensures PowerBits(224) == 0x12
    ensures PowerBits(225) == 0x36
    ensures PowerBits(226) == 0x5A
    ensures PowerBits(227) == 0xEE
    ensures PowerBits(228) == 0x29
    ensures PowerBits(229) == 0x7B
    ensures PowerBits(230) == 0x8D
    ensures PowerBits(231) == 0x8C
    ensures PowerBits(232) == 0x8F
    ensures PowerBits(233) == 0x8A
    ensures PowerBits(234) == 0x85
    ensures PowerBits(235) == 0x94
    ensures PowerBits(236) == 0xA7
    ensures PowerBits(237) == 0xF2
    ensures PowerBits(238) == 0x0D
    ensures PowerBits(239) == 0x17
    ensures PowerBits(240) == 0x39
    ensures PowerBits(241) == 0x4B
    ensures PowerBits(242) == 0xDD
    ensures PowerBits(243) == 0x7C
    ensures PowerBits(244) == 0x84
    ensures PowerBits(245) == 0x97
    ensures PowerBits(246) == 0xA2
    ensures PowerBits(247) == 0xFD
    ensures PowerBits(248) == 0x1C
    ensures PowerBits(249) == 0x24
    ensures PowerBits(250) == 0x6C
    ensures PowerBits(251) == 0xB4
    ensures PowerBits(252) == 0xC7
    ensures PowerBits(253) == 0x52
    ensures PowerBits(254) == 0xF6
    ensures PowerBits(255) == 0x01
  {
    assert PowerBits(192) == 0xFC;
    assert PowerBits(193) == 0x1F;
    assert PowerBits(194) == 0x21;
    assert PowerBits(195) == 0x63;
    assert PowerBits(196) == 0xA5;
    assert PowerBits(197) == 0xF4;
    assert PowerBits(198) == 0x07;
    assert PowerBits(199) == 0x09;
    assert PowerBits(200) == 0x1B;
    assert PowerBits(201) == 0x2D;
    assert PowerBits(202) == 0x77;
    assert PowerBits(203) == 0x99;
    assert PowerBits(204) == 0xB0;
    assert PowerBits(205) == 0xCB;
    assert PowerBits(206) == 0x46;
    assert PowerBits(207) == 0xCA;
    assert PowerBits(208) == 0x45;
    assert PowerBits(209) == 0xCF;
    assert PowerBits(210) == 0x4A;
    assert PowerBits(211) == 0xDE;
    assert PowerBits(212) == 0x79;
    assert PowerBits(213) == 0x8B;
    assert PowerBits(214) == 0x86;
    assert PowerBits(215) == 0x91;
    assert PowerBits(216) == 0xA8;
    assert PowerBits(217) == 0xE3;
    assert PowerBits(218) == 0x3E;
    assert PowerBits(219) == 0x42;
    assert PowerBits(220) == 0xC6;
    assert PowerBits(221) == 0x51;
    assert PowerBits(222) == 0xF3;
    assert PowerBits(223) == 0x0E;
    assert PowerBits(224) == 0x12;
    assert PowerBits(225) == 0x36;
    assert PowerBits(226) == 0x5A;
    assert PowerBits(227) == 0xEE;
    assert PowerBits(228) == 0x29;
    assert PowerBits(229) == 0x7B;
    assert PowerBits(230) == 0x8D;
    assert PowerBits(231) == 0x8C;
    assert PowerBits(232) == 0x8F;
    assert PowerBits(233) == 0x8A;
    assert PowerBits(234) == 0x85;
    assert PowerBits(235) == 0x94;
    assert PowerBits(236) == 0xA7;
    assert PowerBits(237) == 0xF2;
    assert PowerBits(238) == 0x0D;
    assert PowerBits(239) == 0x17;
    assert PowerBits(240) == 0x39;
    assert PowerBits(241) == 0x4B;
    assert PowerBits(242) == 0xDD;
    assert PowerBits(243) == 0x7C;
    assert PowerBits(244) == 0x84;
    assert PowerBits(245) == 0x97;
    assert PowerBits(246) == 0xA2;
    assert PowerBits(247) == 0xFD;
    assert PowerBits(248) == 0x1C;
    assert PowerBits(249) == 0x24;
    assert PowerBits(250) == 0x6C;
    assert PowerBits(251) == 0xB4;
    assert PowerBits(252) == 0xC7;
    assert PowerBits(253) == 0x52;
    assert PowerBits(254) == 0xF6;
  }

  /** The logarithms of the bytes 0x01 .. 0x3F. */
  lemma LogBelow40(a: Byte) returns (k: nat)
    requires 0x01 <= a < 0x40
    ensures k < 255 && Power(k) == a
  {
    PowersFrom0();
    PowersFrom64();
    PowersFrom128();
    PowersFrom192();
    if a == 0x01 {
      k := 0;
    } else if a == 0x02 {
      k := 25;
    } else if a == 0x03 {
      k := 1;
    } else if a == 0x04 {
      k := 50;
    } else if a == 0x05 {
      k := 2;
    } else if a == 0x06 {
      k := 26;
    } else if a == 0x07 {
      k := 198;
    } else if a == 0x08 {
      k := 75;
    } else if a == 0x09 {
      k := 199;
    } else if a == 0x0A {
      k := 27;
    } else if a == 0x0B {
      k := 104;
    } else if a == 0x0C {
      k := 51;
    } else if a == 0x0D {
      k := 238;
    } else if a == 0x0E {
      k := 223;
    } else if a == 0x0F {
      k := 3;
    } else if a == 0x10 {
      k := 100;
    } else if a == 0x11 {
      k := 4;
    } else if a == 0x12 {
      k := 224;
    } else if a == 0x13 {
      k := 14;
    } else if a == 0x14 {
      k := 52;
    } else if a == 0x15 {
      k := 141;
    } else if a == 0x16 {
      k := 129;
    } else if a == 0x17 {
      k := 239;
    } else if a == 0x18 {
      k := 76;
    } else if a == 0x19 {
      k := 113;
    } else if a == 0x1A {
      k := 8;
    } else if a == 0x1B {
      k := 200;
    } else if a == 0x1C {
      k := 248;
    } else if a == 0x1D {
      k := 105;
    } else if a == 0x1E {
      k := 28;
    } else if a == 0x1F {
      k := 193;
    } else if a == 0x20 {
      k := 125;
    } else if a == 0x21 {
      k := 194;
    } else if a == 0x22 {
      k := 29;
    } else if a == 0x23 {
      k := 181;
    } else if a == 0x24 {
      k := 249;
    } else if a == 0x25 {
      k := 185;
    } else if a == 0x26 {
      k := 39;
    } else if a == 0x27 {
      k := 106;
    } else if a == 0x28 {
      k := 77;
    } else if a == 0x29 {
      k := 228;
    } else if a == 0x2A {
      k := 166;
    } else if a == 0x2B {
      k := 114;
    } else if a == 0x2C {
      k := 154;
    } else if a == 0x2D {
      k := 201;
    } else if a == 0x2E {
      k := 9;
    } else if a == 0x2F {
      k := 120;
    } else if a == 0x30 {
      k := 101;
    } else if a == 0x31 {
      k := 47;
    } else if a == 0x32 {
      k := 138;
    } else if a == 0x33 {
      k := 5;
    } else if a == 0x34 {
      k := 33;
    } else if a == 0x35 {
      k := 15;
    } else if a == 0x36 {
      k := 225;
    } else if a == 0x37 {
      k := 36;
    } else if a == 0x38 {
      k := 18;
    } else if a == 0x39 {
      k := 240;
    } else if a == 0x3A {
      k := 130;
    } else if a == 0x3B {
      k := 69;
    } else if a == 0x3C {
      k := 53;
    } else if a == 0x3D {
      k := 147;
    } else if a == 0x3E {
      k := 218;
    } else {
      k := 142;
    }
    PowerIsPowerBits(k);
  }

  /** The logarithms of the bytes 0x40 .. 0x7F. */
  lemma LogBelow80(a: Byte) returns (k: nat)
    requires 0x40 <= a < 0x80
    ensures k < 255 && Power(k) == a
  {
    PowersFrom0();
    PowersFrom64();
    PowersFrom128();
    PowersFrom192();
    if a == 0x40 {
      k := 150;
    } else if a == 0x41 {
      k := 143;
    } else if a == 0x42 {
      k := 219;
    } else if a == 0x43 {
      k := 189;
    } else if a == 0x44 {
      k := 54;
    } else if a == 0x45 {
      k := 208;
    } else if a == 0x46 {
      k := 206;
    } else if a == 0x47 {
      k := 148;
    } else if a == 0x48 {
      k := 19;
    } else if a == 0x49 {
      k := 92;
    } else if a == 0x4A {
      k := 210;
    } else if a == 0x4B {
      k := 241;
    } else if a == 0x4C {
      k := 64;
    } else if a == 0x4D {
      k := 70;
    } else if a == 0x4E {
      k := 131;
    } else if a == 0x4F {
      k := 56;
    } else if a == 0x50 {
      k := 102;
    } else if a == 0x51 {
      k := 221;
    } else if a == 0x52 {
      k := 253;
    } else if a == 0x53 {
      k := 48;
    } else if a == 0x54 {
      k := 191;
    } else if a == 0x55 {
      k := 6;
    } else if a == 0x56 {
      k := 139;
    } else if a == 0x57 {
      k := 98;
    } else if a == 0x58 {
      k := 179;
    } else if a == 0x59 {
      k := 37;
    } else if a == 0x5A {
      k := 226;
    } else if a == 0x5B {
      k := 152;
    } else if a == 0x5C {
      k := 34;
    } else if a == 0x5D {
      k := 136;
    } else if a == 0x5E {
      k := 145;
    } else if a == 0x5F {
      k := 16;
    } else if a == 0x60 {
      k := 126;
    } else if a == 0x61 {
      k := 110;
    } else if a == 0x62 {
      k := 72;
    } else if a == 0x63 {
      k := 195;
    } else if a == 0x64 {
      k := 163;
    } else if a == 0x65 {
      k := 182;
    } else if a == 0x66 {
      k := 30;
    } else if a == 0x67 {
      k := 66;
    } else if a == 0x68 {
      k := 58;
    } else if a == 0x69 {
      k := 107;
    } else if a == 0x6A {
      k := 40;
    } else if a == 0x6B {
      k := 84;
    } else if a == 0x6C {
      k := 250;
    } else if a == 0x6D {
      k := 133;
    } else if a == 0x6E {
      k := 61;
    } else if a == 0x6F {
      k := 186;
    } else if a == 0x70 {
      k := 43;
    } else if a == 0x71 {
      k := 121;
    } else if a == 0x72 {
      k := 10;
    } else if a == 0x73 {
      k := 21;
    } else if a == 0x74 {
      k := 155;
    } else if a == 0x75 {
      k := 159;
    } else if a == 0x76 {
      k := 94;
    } else if a == 0x77 {
      k := 202;
    } else if a == 0x78 {
      k := 78;
    } else if a == 0x79 {
      k := 212;
    } else if a == 0x7A {
      k := 172;
    } else if a == 0x7B {
      k := 229;
    } else if a == 0x7C {
      k := 243;
    } else if a == 0x7D {
      k := 115;
    } else if a == 0x7E {
      k := 167;
    } else {
      k := 87;
    }
    PowerIsPowerBits(k);
  }

  /** The logarithms of the bytes 0x80 .. 0xBF. */
  lemma LogBelowC0(a: Byte) returns (k: nat)
    requires 0x80 <= a < 0xC0
    ensures k < 255 && Power(k) == a
  {
    PowersFrom0();
    PowersFrom64();
    PowersFrom128();
    PowersFrom192();
    if a == 0x80 {
      k := 175;
    } else if a == 0x81 {
      k := 88;
    } else if a == 0x82 {
      k := 168;
    } else if a == 0x83 {
      k := 80;
    } else if a == 0x84 {
      k := 244;
    } else if a == 0x85 {
      k := 234;
    } else if a == 0x86 {
      k := 214;
    } else if a == 0x87 {
      k := 116;
    } else if a == 0x88 {
      k := 79;
    } else if a == 0x89 {
      k := 174;
    } else if a == 0x8A {
      k := 233;
    } else if a == 0x8B {
      k := 213;
    } else if a == 0x8C {
      k := 231;
    } else if a == 0x8D {
      k := 230;
    } else if a == 0x8E {
      k := 173;
    } else if a == 0x8F {
      k := 232;
    } else if a == 0x90 {
      k := 44;
    } else if a == 0x91 {
      k := 215;
    } else if a == 0x92 {
      k := 117;
    } else if a == 0x93 {
      k := 122;
    } else if a == 0x94 {
      k := 235;
    } else if a == 0x95 {
      k := 22;
    } else if a == 0x96 {
      k := 11;
    } else if a == 0x97 {
      k := 245;
    } else if a == 0x98 {
      k := 89;
    } else if a == 0x99 {
      k := 203;
    } else if a == 0x9A {
      k := 95;
    } else if a == 0x9B {
      k := 176;
    } else if a == 0x9C {
      k := 156;
    } else if a == 0x9D {
      k := 169;
    } else if a == 0x9E {
      k := 81;
    } else if a == 0x9F {
      k := 160;
    } else if a == 0xA0 {
      k := 127;
    } else if a == 0xA1 {
      k := 12;
    } else if a == 0xA2 {
      k := 246;
    } else if a == 0xA3 {
      k := 111;
    } else if a == 0xA4 {
      k := 23;
    } else if a == 0xA5 {
      k := 196;
    } else if a == 0xA6 {
      k := 73;
    } else if a == 0xA7 {
      k := 236;
    } else if a == 0xA8 {
      k := 216;
    } else if a == 0xA9 {
      k := 67;
    } else if a == 0xAA {
      k := 31;
    } else if a == 0xAB {
      k := 45;
    } else if a == 0xAC {
      k := 164;
    } else if a == 0xAD {
      k := 118;
    } else if a == 0xAE {
      k := 123;
    } else if a == 0xAF {
      k := 183;
    } else if a == 0xB0 {
      k := 204;
    } else if a == 0xB1 {
      k := 187;
    } else if a == 0xB2 {
      k := 62;
    } else if a == 0xB3 {
      k := 90;
    } else if a == 0xB4 {
      k := 251;
    } else if a == 0xB5 {
      k := 96;
    } else if a == 0xB6 {
      k := 177;
    } else if a == 0xB7 {
      k := 134;
    } else if a == 0xB8 {
      k := 59;
    } else if a == 0xB9 {
      k := 82;
    } else if a == 0xBA {
      k := 161;
    } else if a == 0xBB {
      k := 108;
    } else if a == 0xBC {
      k := 170;
    } else if a == 0xBD {
      k := 85;
    } else if a == 0xBE {
      k := 41;
    } else {
      k := 157;
    }
    PowerIsPowerBits(k);
  }

  /** The logarithms of the bytes 0xC0 .. 0xFF. */
  lemma LogBelow100(a: Byte) returns (k: nat)
    requires 0xC0 <= a < 0x100
    ensures k < 255 && Power(k) == a
  {
    PowersFrom0();
    PowersFrom64();
    PowersFrom128();
    PowersFrom192();
    if a == 0xC0 {
      k := 151;
    } else if a == 0xC1 {
      k := 178;
    } else if a == 0xC2 {
      k := 135;
    } else if a == 0xC3 {
      k := 144;
    } else if a == 0xC4 {
      k := 97;
    } else if a == 0xC5 {
      k := 190;
    } else if a == 0xC6 {
      k := 220;
    } else if a == 0xC7 {
      k := 252;
    } else if a == 0xC8 {
      k := 188;
    } else if a == 0xC9 {
      k := 149;
    } else if a == 0xCA {
      k := 207;
    } else if a == 0xCB {
      k := 205;
    } else if a == 0xCC {
      k := 55;
    } else if a == 0xCD {
      k := 63;
    } else if a == 0xCE {
      k := 91;
    } else if a == 0xCF {
      k := 209;
    } else if a == 0xD0 {
      k := 83;
    } else if a == 0xD1 {
      k := 57;
    } else if a == 0xD2 {
      k := 132;
    } else if a == 0xD3 {
      k := 60;
    } else if a == 0xD4 {
      k := 65;
    } else if a == 0xD5 {
      k := 162;
    } else if a == 0xD6 {
      k := 109;
    } else if a == 0xD7 {
      k := 71;
    } else if a == 0xD8 {
      k := 20;
    } else if a == 0xD9 {
      k := 42;
    } else if a == 0xDA {
      k := 158;
    } else if a == 0xDB {
      k := 93;
    } else if a == 0xDC {
      k := 86;
    } else if a == 0xDD {
      k := 242;
    } else if a == 0xDE {
      k := 211;
    } else if a == 0xDF {
      k := 171;
    } else if a == 0xE0 {
      k := 68;
    } else if a == 0xE1 {
      k := 17;
    } else if a == 0xE2 {
      k := 146;
    } else if a == 0xE3 {
      k := 217;
    } else if a == 0xE4 {
      k := 35;
    } else if a == 0xE5 {
      k := 32;
    } else if a == 0xE6 {
      k := 46;
    } else if a == 0xE7 {
      k := 137;
    } else if a == 0xE8 {
      k := 180;
    } else if a == 0xE9 {
      k := 124;
    } else if a == 0xEA {
      k := 184;
    } else if a == 0xEB {
      k := 38;
    } else if a == 0xEC {
      k := 119;
    } else if a == 0xED {
      k := 153;
    } else if a == 0xEE {
      k := 227;
    } else if a == 0xEF {
      k := 165;
    } else if a == 0xF0 {
      k := 103;
    } else if a == 0xF1 {
      k := 74;
    } else if a == 0xF2 {
      k := 237;
    } else if a == 0xF3 {
      k := 222;
    } else if a == 0xF4 {
      k := 197;
    } else if a == 0xF5 {
      k := 49;
    } else if a == 0xF6 {
      k := 254;
    } else if a == 0xF7 {
      k := 24;
    } else if a == 0xF8 {
      k := 13;
    } else if a == 0xF9 {
      k := 99;
    } else if a == 0xFA {
      k := 140;
    } else if a == 0xFB {
      k := 128;
    } else if a == 0xFC {
      k := 192;
    } else if a == 0xFD {
      k := 247;
    } else if a == 0xFE {
      k := 112;
    } else {
      k := 7;
    }
    PowerIsPowerBits(k);
  }
}
