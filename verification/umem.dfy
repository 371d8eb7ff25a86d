/**
 * The round-up-to-alignment macros of umem.h. `uAES_ALIGN(x, a)` rounds a size
 * `x` up to a multiple of the boundary `a` by adding `a - 1` and clearing the low
 * bits with the mask `~(a - 1)`. Sizes are 64-bit `size_t` values, kept here as
 * integers below 2^64: the addition wraps modulo 2^64 as the C addition does, `~`
 * is the 64-bit complement, and `&` is defined bit by bit.
 */
module Umem {
  import opened Bits

  /** 2^64: a `size_t` holds the values below it. */
  const SizeModulus: nat := 0x1_0000_0000_0000_0000

  /** A `size_t`. */
  type Size = x: int | 0 <= x < SizeModulus

  /** `uAES_ALIGN_BNDRY` (umem.h:23). */
  const AlignBndry: Size := 4
  /** `uAES_ALIGN_MASK` (umem.h:24): the boundary less one. */
  const AlignMask: Size := AlignBndry - 1

  /** Bitwise `&` of two naturals, one bit at a time from the least significant. */
  function And(u: nat, v: nat): (r: nat)
    ensures r <= u && r <= v
  {
    if u == 0 || v == 0 then 0
    else 2 * And(u / 2, v / 2) + (if u % 2 == 1 && v % 2 == 1 then 1 else 0)
  }

  /** `~m` on a 64-bit value. */
  function Complement(m: Size): Size
  {
    SizeModulus - 1 - m
  }

  /** `uAES_GET_ALIGN_MASK(x, mask)` (umem.h:25): `(x + mask) & ~mask`, the sum wrapping at 2^64. */
  function GetAlignMask(x: Size, mask: Size): Size
  {
    And((x + mask) % SizeModulus, Complement(mask))
  }

  /**
   * `uAES_ALIGN(x, a)` (umem.h:26): `uAES_GET_ALIGN_MASK(x, (typeof(x))a - 1)`. The
   * subtraction is on `size_t`, so a boundary of 0 gives the mask 2^64 - 1.
   */
  function Align(x: Size, a: Size): Size
  {
    GetAlignMask(x, (a - 1) % SizeModulus)
  }

  // ---------------------------------------------------------------------------
  // Powers of two and division

  /** 2^(m+n) is 2^m times 2^n. */
  lemma {:induction false} Pow2Add(m: nat, n: nat)
    ensures Pow2(m + n) == Pow2(m) * Pow2(n)
    decreases n
  {
    if n > 0 {
      Pow2Add(m, n - 1);
      assert Pow2(m + n) == 2 * (Pow2(m) * Pow2(n - 1));
    }
  }

  /** The modulus of `size_t` is 2^64. */
  lemma SizeModulusIsPow2()
    ensures SizeModulus == Pow2(64)
  {
    assert Pow2(4) == 16;
    Pow2Add(4, 4);
    assert Pow2(8) == 0x100;
    Pow2Add(8, 8);
    assert Pow2(16) == 0x1_0000;
    Pow2Add(16, 16);
    assert Pow2(32) == 0x1_0000_0000;
    Pow2Add(32, 32);
  }

  /** Multiplying by `d` keeps the order. */
  lemma MulMono(d: nat, q: int, m: int)
    requires q <= m
    ensures d * q <= d * m
  {
    assert d * m == d * q + d * (m - q);
  }

  /** Multiplying by `d` keeps a gap of at least `d` between different quotients. */
  lemma MulGap(d: nat, q: int, m: int)
    requires q < m
    ensures d * q + d <= d * m
  {
    MulMono(d, q + 1, m);
  }

  /** Doubling a factor doubles the product. */
  lemma MulDouble(p: nat, f: nat)
    ensures (2 * p) * f == 2 * (p * f)
  {
  }

  /** One factor fewer takes one `p` off the product. */
  lemma MulSubOne(p: nat, f: nat)
    requires 1 <= f
    ensures p * (f - 1) == p * f - p
  {
  }

  /** Dividing `y` by `d` leaves a quotient and a remainder below `d`. */
  lemma DivMod(y: nat, d: nat)
    requires 0 < d
    ensures y == d * (y / d) + y % d && y % d < d
  {
  }

  /** A quotient and remainder that fit are the quotient and remainder. */
  lemma DivUnique(y: nat, d: nat, q: nat, r: nat)
    requires r < d && y == d * q + r
    ensures y / d == q && y % d == r
  {
    var q', r' := y / d, y % d;
    assert y == d * q' + r' && 0 <= r' < d;
    if q' > q {
      MulGap(d, q, q');
    } else if q' < q {
      MulGap(d, q', q);
    }
  }

  /** `y >> k`: `y` halved `k` times. */
  function Shr(y: nat, k: nat): nat
  {
    if k == 0 then y else Shr(y / 2, k - 1)
  }

  /** The `k` low bits of `y`, the bits `y >> k` drops. */
  function Low(y: nat, k: nat): nat
  {
    if k == 0 then 0 else 2 * Low(y / 2, k - 1) + y % 2
  }

  /** `y` splits into `y >> k` shifted back and its `k` low bits. */
  lemma {:induction false} ShrLow(y: nat, k: nat)
    ensures y == Pow2(k) * Shr(y, k) + Low(y, k) && Low(y, k) < Pow2(k)
    decreases k
  {
    if k > 0 {
      ShrLow(y / 2, k - 1);
      MulDouble(Pow2(k - 1), Shr(y / 2, k - 1));
    }
  }

  /** A value of at most `n` bits shifts right by `n` to 0. */
  lemma {:induction false} ShrBelow(y: nat, n: nat)
    requires y < Pow2(n)
    ensures Shr(y, n) == 0
    decreases n
  {
    if n > 0 {
      ShrBelow(y / 2, n - 1);
    }
  }

  // ---------------------------------------------------------------------------
  // Masks of low bits

  /** `&` with `n` one bits keeps a value of at most `n` bits. */
  lemma {:induction false} AndOnes(y: nat, n: nat)
    requires y < Pow2(n)
    ensures And(y, Pow2(n) - 1) == y
    decreases n
  {
    if n > 0 && y != 0 {
      assert (Pow2(n) - 1) / 2 == Pow2(n - 1) - 1;
      AndOnes(y / 2, n - 1);
    }
  }

  /** `&` with an even mask: the low bit is clear and the rest is `&` of the halves. */
  lemma AndEven(y: nat, e: nat)
    ensures And(y, 2 * e) == 2 * And(y / 2, e)
  {
    assert (2 * e) / 2 == e && (2 * e) % 2 == 0;
  }

  /** One step of `AndClearsLow`: doubling the mask's low factor doubles the result. */
  lemma AndClearsStep(y: nat, p: nat, p2: nat, f: nat, s: nat)
    requires p2 == 2 * p && And(y / 2, p * f) == p * s
    ensures And(y, p2 * f) == p2 * s
  {
    MulDouble(p, f);
    MulDouble(p, s);
    AndEven(y, p * f);
  }

  /**
   * `&` with the mask whose bits `k .. n-1` are set, `2^k * (2^(n-k) - 1)`, clears
   * the `k` low bits of a value of at most `n` bits.
   */
  lemma {:induction false} AndClearsLow(y: nat, n: nat, k: nat)
    requires k <= n && y < Pow2(n)
    ensures And(y, Pow2(k) * (Pow2(n - k) - 1)) == Pow2(k) * Shr(y, k)
    decreases k
  {
    if k == 0 {
      AndOnes(y, n);
      assert Pow2(k) * (Pow2(n - k) - 1) == Pow2(n) - 1;
    } else if k == n {
      ShrBelow(y, n);
      assert Pow2(k) * (Pow2(n - k) - 1) == 0;
    } else {
      assert n - 1 - (k - 1) == n - k;
      AndClearsLow(y / 2, n - 1, k - 1);
      AndClearsStep(y, Pow2(k - 1), Pow2(k), Pow2(n - k) - 1, Shr(y / 2, k - 1));
      assert Shr(y, k) == Shr(y / 2, k - 1);
    }
  }

  /** With a power-of-two boundary `a`, `uAES_ALIGN` rounds `x + a - 1`, wrapped, down to a multiple of `a`. */
  lemma AlignRoundsDown(x: Size, k: nat)
    requires k < 64
    ensures Pow2(k) < SizeModulus
    ensures Align(x, Pow2(k)) == Pow2(k) * Shr((x + Pow2(k) - 1) % SizeModulus, k)
  {
    var a, m := Pow2(k), Pow2(64 - k);
    Pow2Divides(k);
    assert m == 2 * Pow2(63 - k);
    MulGap(a, 1, m);
    var mask := a - 1;
    DivUnique(mask, SizeModulus, 0, mask);
    MulSubOne(a, m);
    assert Complement(mask) == a * (m - 1);
    var y := (x + mask) % SizeModulus;
    assert Align(x, a) == And(y, a * (m - 1));
    SizeModulusIsPow2();
    AndClearsLow(y, 64, k);
  }

  /** 2^k divides 2^64 for `k <= 64`. */
  lemma Pow2Divides(k: nat)
    requires k <= 64
    ensures SizeModulus == Pow2(k) * Pow2(64 - k)
  {
    SizeModulusIsPow2();
    Pow2Add(k, 64 - k);
  }

  /** A multiple of `a` below a multiple `a * m` of `a` is at least `a` below it. */
  lemma MultipleBelow(x: nat, a: nat, m: nat)
    requires 0 < a && x % a == 0 && x < a * m
    ensures x + a <= a * m
  {
    DivMod(x, a);
    var q := x / a;
    if m <= q {
      MulMono(a, m, q);
    }
    MulGap(a, q, m);
  }

  // ---------------------------------------------------------------------------
  // What alignment promises, for a boundary `a = 2^k`

  /** The result is a multiple of `a`, wrap or no wrap. */
  lemma AlignMultiple(x: Size, k: nat)
    requires k < 64
    ensures Pow2(k) < SizeModulus && Align(x, Pow2(k)) % Pow2(k) == 0
  {
    AlignRoundsDown(x, k);
    DivUnique(Align(x, Pow2(k)), Pow2(k), Shr((x + Pow2(k) - 1) % SizeModulus, k), 0);
  }

  /**
   * When `x + a - 1` fits in a `size_t` the result is the least multiple of `a` not
   * below `x`: at least `x` and less than `x + a`. When the sum wraps, the result
   * falls below `x`.
   */
  lemma AlignBounds(x: Size, k: nat)
    requires k < 64
    ensures Pow2(k) < SizeModulus
    ensures x + Pow2(k) - 1 < SizeModulus ==> x <= Align(x, Pow2(k)) < x + Pow2(k)
    ensures x + Pow2(k) - 1 >= SizeModulus ==> Align(x, Pow2(k)) < x
  {
    AlignRoundsDown(x, k);
    var sum := x + Pow2(k) - 1;
    if sum < SizeModulus {
      DivUnique(sum, SizeModulus, 0, sum);
    } else {
      DivUnique(sum, SizeModulus, 1, sum - SizeModulus);
    }
    ShrLow(sum % SizeModulus, k);
  }

  /** A multiple of `a` is left as it is. */
  lemma AlignIdentity(x: Size, k: nat)
    requires k < 64 && x % Pow2(k) == 0
    ensures Pow2(k) < SizeModulus && Align(x, Pow2(k)) == x
  {
    var a := Pow2(k);
    var q: nat := x / a;
    DivMod(x, a);
    Pow2Divides(k);
    MultipleBelow(x, a, Pow2(64 - k));
    var y := x + a - 1;
    DivUnique(y, a, q, a - 1);
    ShrLow(y, k);
    DivUnique(y, a, Shr(y, k), Low(y, k));
    DivUnique(y, SizeModulus, 0, y);
    AlignRoundsDown(x, k);
  }

  /** Aligning twice is aligning once. */
  lemma AlignIdempotent(x: Size, k: nat)
    requires k < 64
    ensures Pow2(k) < SizeModulus && Align(Align(x, Pow2(k)), Pow2(k)) == Align(x, Pow2(k))
  {
    AlignMultiple(x, k);
    AlignIdentity(Align(x, Pow2(k)), k);
  }

  /**
   * The default boundary is 4 = 2^2 and its mask is 3: `uAES_ALIGN(x, uAES_ALIGN_BNDRY)`
   * is `uAES_GET_ALIGN_MASK(x, uAES_ALIGN_MASK)`, the next multiple of 4 from `x`
   * when `x + 3` does not wrap.
   */
  lemma DefaultAlign(x: Size)
    ensures AlignMask == 3 && AlignBndry == Pow2(2)
    ensures Align(x, AlignBndry) == GetAlignMask(x, AlignMask)
    ensures Align(x, AlignBndry) % 4 == 0
    ensures x + 3 < SizeModulus ==> x <= Align(x, AlignBndry) <= x + 3
  {
    assert Pow2(2) == 4;
    AlignBounds(x, 2);
    AlignMultiple(x, 2);
  }
}
