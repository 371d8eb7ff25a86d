/**
 * The 32-bit words of ops.c.
 *
 * A `uint32_t` is held as its four bytes, least significant first. Every operation
 * ops.c performs on words (packing four bytes with `|` and `<<`, extracting one with
 * `(uint8_t)(w >> 8*R)`, rotating by whole bytes, exclusive or) moves or combines
 * whole bytes. The lemmas at the end of this module show on 32-bit vectors that
 * the C shift expressions move the byte lanes exactly as modelled here.
 */
module Words {
  import opened Bits

  /** A `uint32_t`: `b0` is bits 0-7, `b3` bits 24-31. */
  datatype Word = Word(b0: Byte, b1: Byte, b2: Byte, b3: Byte)

  /** `(uint8_t)(w >> 8*r)`. */
  function ByteOf(w: Word, r: nat): Byte
    requires r < 4
  {
    if r == 0 then w.b0 else if r == 1 then w.b1 else if r == 2 then w.b2 else w.b3
  }

  /** `s[i] | s[i+1] << 8 | s[i+2] << 16 | s[i+3] << 24`: four bytes read as one word. */
  function Pack(s: seq<Byte>, i: nat): (w: Word)
    requires i + 4 <= |s|
    ensures forall r :: 0 <= r < 4 ==> ByteOf(w, r) == s[i + r]
  {
    Word(s[i], s[i + 1], s[i + 2], s[i + 3])
  }

  /** C `^` on `uint32_t`. */
  function XorWord(x: Word, y: Word): (z: Word)
    ensures forall r :: 0 <= r < 4 ==> ByteOf(z, r) == Xor(ByteOf(x, r), ByteOf(y, r))
  {
    Word(Xor(x.b0, y.b0), Xor(x.b1, y.b1), Xor(x.b2, y.b2), Xor(x.b3, y.b3))
  }

  /** Exclusive or with the same word twice gives back the word. */
  lemma XorWordCancel(x: Word, y: Word)
    ensures XorWord(XorWord(x, y), y) == x
  {
    XorCancel(x.b0, y.b0);
    XorCancel(x.b1, y.b1);
    XorCancel(x.b2, y.b2);
    XorCancel(x.b3, y.b3);
  }

  /** `rotword` (ops.c:57-60): `(w >> 8) | (w << 24)`. */
  function RotWord(w: Word): Word
  {
    Word(w.b1, w.b2, w.b3, w.b0)
  }

  /** Byte `r` of `rotword(w)` is byte `r + 1` of `w`, so `[b0,b1,b2,b3]` becomes `[b1,b2,b3,b0]`. */
  lemma RotWordBytes(w: Word)
    ensures forall r :: 0 <= r < 4 ==> ByteOf(RotWord(w), r) == ByteOf(w, (r + 1) % 4)
  {
  }

  /**
   * `word_shift` (ops.c:68-71): `(w >> 8*n) | (w << (32 - 8*n))`, a rotation towards
   * the least significant byte by `n` bytes. For `n == 0` the C expression shifts by
   * 32, which is undefined; the evident intent, the identity, is modelled.
   */
  function WordShift(w: Word, n: nat): Word
    requires n < 4
  {
    if n == 0 then w
    else if n == 1 then Word(w.b1, w.b2, w.b3, w.b0)
    else if n == 2 then Word(w.b2, w.b3, w.b0, w.b1)
    else Word(w.b3, w.b0, w.b1, w.b2)
  }

  /** `inv_word_shift` (ops.c:79-82): `(w << 8*n) | (w >> (32 - 8*n))`; identity for `n == 0`. */
  function InvWordShift(w: Word, n: nat): Word
    requires n < 4
  {
    if n == 0 then w
    else if n == 1 then Word(w.b3, w.b0, w.b1, w.b2)
    else if n == 2 then Word(w.b2, w.b3, w.b0, w.b1)
    else Word(w.b1, w.b2, w.b3, w.b0)
  }

  /** Byte `r` of `word_shift(w, n)` is byte `r + n` (mod 4) of `w`. */
  lemma WordShiftBytes(w: Word, n: nat)
    requires n < 4
    ensures forall r :: 0 <= r < 4 ==> ByteOf(WordShift(w, n), r) == ByteOf(w, (r + n) % 4)
  {
  }

  /** Byte `r` of `inv_word_shift(w, n)` is byte `r - n` (mod 4) of `w`. */
  lemma InvWordShiftBytes(w: Word, n: nat)
    requires n < 4
    ensures forall r :: 0 <= r < 4 ==> ByteOf(InvWordShift(w, n), r) == ByteOf(w, (r + 4 - n) % 4)
  {
  }

  /** The two shifts undo each other, in either order. */
  lemma WordShiftRoundTrip(w: Word, n: nat)
    requires n < 4
    ensures InvWordShift(WordShift(w, n), n) == w
    ensures WordShift(InvWordShift(w, n), n) == w
  {
  }

  /** `rotword` is `word_shift` by one byte. */
  lemma RotWordIsShift(w: Word)
    ensures RotWord(w) == WordShift(w, 1)
  {
  }

  // ---------------------------------------------------------------------------
  // The C expressions on 32-bit vectors

  /** The `uint32_t` whose byte lanes, least significant first, are `x0 .. x3`. */
  function Lanes(x0: bv8, x1: bv8, x2: bv8, x3: bv8): bv32
  {
    (x0 as bv32) | ((x1 as bv32) << 8) | ((x2 as bv32) << 16) | ((x3 as bv32) << 24)
  }

  /** The bits of a word. */
  function Bits32(w: Word): bv32
  {
    Lanes(w.b0 as bv8, w.b1 as bv8, w.b2 as bv8, w.b3 as bv8)
  }

  /** `(uint8_t)(v >> 8*r)` reads lane `r`. */
  lemma LanesExtract(x0: bv8, x1: bv8, x2: bv8, x3: bv8)
    ensures (Lanes(x0, x1, x2, x3) & 0xFF) as bv8 == x0
    ensures ((Lanes(x0, x1, x2, x3) >> 8) & 0xFF) as bv8 == x1
    ensures ((Lanes(x0, x1, x2, x3) >> 16) & 0xFF) as bv8 == x2
    ensures ((Lanes(x0, x1, x2, x3) >> 24) & 0xFF) as bv8 == x3
  {
  }

  /**
   * `Pack` is the C packing `s[i] | s[i+1] << 8 | s[i+2] << 16 | s[i+3] << 24` of
   * four `uint8_t`s (`Lanes`), and reading lane `r` back with `(uint8_t)(v >> 8*r)`
   * gives `s[i + r]`.
   */
  lemma PackBits(s: seq<Byte>, i: nat)
    requires i + 4 <= |s|
    ensures Bits32(Pack(s, i)) == Lanes(s[i] as bv8, s[i + 1] as bv8, s[i + 2] as bv8, s[i + 3] as bv8)
    ensures (Bits32(Pack(s, i)) & 0xFF) as bv8 == s[i] as bv8
    ensures ((Bits32(Pack(s, i)) >> 8) & 0xFF) as bv8 == s[i + 1] as bv8
    ensures ((Bits32(Pack(s, i)) >> 16) & 0xFF) as bv8 == s[i + 2] as bv8
    ensures ((Bits32(Pack(s, i)) >> 24) & 0xFF) as bv8 == s[i + 3] as bv8
  {
    PackLanes(Pack(s, i), s[i] as bv8, s[i + 1] as bv8, s[i + 2] as bv8, s[i + 3] as bv8);
  }

  /** A word whose bytes are the lanes `x0 .. x3` has those lanes as its bits, and each reads back. */
  lemma PackLanes(w: Word, x0: bv8, x1: bv8, x2: bv8, x3: bv8)
    requires w.b0 as bv8 == x0 && w.b1 as bv8 == x1 && w.b2 as bv8 == x2 && w.b3 as bv8 == x3
    ensures Bits32(w) == Lanes(x0, x1, x2, x3)
    ensures (Bits32(w) & 0xFF) as bv8 == x0
    ensures ((Bits32(w) >> 8) & 0xFF) as bv8 == x1
    ensures ((Bits32(w) >> 16) & 0xFF) as bv8 == x2
    ensures ((Bits32(w) >> 24) & 0xFF) as bv8 == x3
  {
    LanesExtract(x0, x1, x2, x3);
  }

  /** `(v >> 8) | (v << 24)` moves each lane down by one, lane 0 to the top. */
  lemma RotateOneLane(x0: bv8, x1: bv8, x2: bv8, x3: bv8)
    ensures (Lanes(x0, x1, x2, x3) >> 8) | (Lanes(x0, x1, x2, x3) << 24) == Lanes(x1, x2, x3, x0)
  {
  }

  lemma RotateTwoLanes(x0: bv8, x1: bv8, x2: bv8, x3: bv8)
    ensures (Lanes(x0, x1, x2, x3) >> 16) | (Lanes(x0, x1, x2, x3) << 16) == Lanes(x2, x3, x0, x1)
  {
  }

  lemma RotateThreeLanes(x0: bv8, x1: bv8, x2: bv8, x3: bv8)
    ensures (Lanes(x0, x1, x2, x3) >> 24) | (Lanes(x0, x1, x2, x3) << 8) == Lanes(x3, x0, x1, x2)
  {
  }

  /** The C expression of `rotword` computes `RotWord`. */
  lemma RotWordBits(w: Word)
    ensures Bits32(RotWord(w)) == (Bits32(w) >> 8) | (Bits32(w) << 24)
  {
    RotateOneLane(w.b0 as bv8, w.b1 as bv8, w.b2 as bv8, w.b3 as bv8);
  }

  /** The C expression of `word_shift(w, 1)` computes `WordShift(w, 1)`. */
  lemma WordShiftOneBits(w: Word)
    ensures Bits32(WordShift(w, 1)) == (Bits32(w) >> 8) | (Bits32(w) << 24)
  {
    assert WordShift(w, 1) == Word(w.b1, w.b2, w.b3, w.b0);
    RotateOneLane(w.b0 as bv8, w.b1 as bv8, w.b2 as bv8, w.b3 as bv8);
  }

  /** The C expression of `word_shift(w, 2)` computes `WordShift(w, 2)`. */
  lemma WordShiftTwoBits(w: Word)
    ensures Bits32(WordShift(w, 2)) == (Bits32(w) >> 16) | (Bits32(w) << 16)
  {
    assert WordShift(w, 2) == Word(w.b2, w.b3, w.b0, w.b1);
    RotateTwoLanes(w.b0 as bv8, w.b1 as bv8, w.b2 as bv8, w.b3 as bv8);
  }

  /** The C expression of `word_shift(w, 3)` computes `WordShift(w, 3)`. */
  lemma WordShiftThreeBits(w: Word)
    ensures Bits32(WordShift(w, 3)) == (Bits32(w) >> 24) | (Bits32(w) << 8)
  {
    assert WordShift(w, 3) == Word(w.b3, w.b0, w.b1, w.b2);
    RotateThreeLanes(w.b0 as bv8, w.b1 as bv8, w.b2 as bv8, w.b3 as bv8);
  }

  /** The C expression of `inv_word_shift(w, 1)` computes `InvWordShift(w, 1)`. */
  lemma InvWordShiftOneBits(w: Word)
    ensures Bits32(InvWordShift(w, 1)) == (Bits32(w) << 8) | (Bits32(w) >> 24)
  {
    assert InvWordShift(w, 1) == Word(w.b3, w.b0, w.b1, w.b2);
    RotateThreeLanes(w.b0 as bv8, w.b1 as bv8, w.b2 as bv8, w.b3 as bv8);
  }

  /** The C expression of `inv_word_shift(w, 2)` computes `InvWordShift(w, 2)`. */
  lemma InvWordShiftTwoBits(w: Word)
    ensures Bits32(InvWordShift(w, 2)) == (Bits32(w) << 16) | (Bits32(w) >> 16)
  {
    assert InvWordShift(w, 2) == Word(w.b2, w.b3, w.b0, w.b1);
    RotateTwoLanes(w.b0 as bv8, w.b1 as bv8, w.b2 as bv8, w.b3 as bv8);
  }

  /** The C expression of `inv_word_shift(w, 3)` computes `InvWordShift(w, 3)`. */
  lemma InvWordShiftThreeBits(w: Word)
    ensures Bits32(InvWordShift(w, 3)) == (Bits32(w) << 24) | (Bits32(w) >> 8)
  {
    assert InvWordShift(w, 3) == Word(w.b1, w.b2, w.b3, w.b0);
    RotateOneLane(w.b0 as bv8, w.b1 as bv8, w.b2 as bv8, w.b3 as bv8);
  }

  lemma XorLanes(x0: bv8, x1: bv8, x2: bv8, x3: bv8, y0: bv8, y1: bv8, y2: bv8, y3: bv8)
    ensures Lanes(x0 ^ y0, x1 ^ y1, x2 ^ y2, x3 ^ y3) == Lanes(x0, x1, x2, x3) ^ Lanes(y0, y1, y2, y3)
  {
  }

  /** Byte `^` of one lane, as a bit-vector. */
  lemma XorByteBits(x: Byte, y: Byte)
    ensures Xor(x, y) as bv8 == (x as bv8) ^ (y as bv8)
  {
    XorIsBits(x, y);
    BitsOfByte((x as bv8) ^ (y as bv8));
  }

  /** `XorWord` is C's `^` on the 32-bit values. */
  lemma XorWordBits(x: Word, y: Word)
    ensures Bits32(XorWord(x, y)) == Bits32(x) ^ Bits32(y)
  {
    XorByteBits(x.b0, y.b0);
    XorByteBits(x.b1, y.b1);
    XorByteBits(x.b2, y.b2);
    XorByteBits(x.b3, y.b3);
    XorLanes(x.b0 as bv8, x.b1 as bv8, x.b2 as bv8, x.b3 as bv8, y.b0 as bv8, y.b1 as bv8, y.b2 as bv8, y.b3 as bv8);
  }
}
