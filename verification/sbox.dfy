/**
 * The S-box of ops.c: `sub_bytes` maps a byte to the affine image of its inverse in
 * GF(2^8), `inv_sub_bytes` undoes the affine map and inverts; `sub_word` applies
 * `sub_bytes` to each byte of a word.
 *
 * The circular shifts and the affine maps are bit manipulations and are written on
 * eight-bit vectors, as C computes them on a `uint8_t`.
 */
module SBox {
  import opened Bits
  import opened Field
  import opened Inverse
  import opened Words

  /** `s_box_fwd_map` (ops.c:37). */
  const ForwardMap: bv8 := 0x63
  /** `s_box_inv_map` (ops.c:38). */
  const InverseMap: bv8 := 0x05

  /**
   * `circ_shift` (ops.c:90-93): `(byte << n) | (byte >> (8 - n))`, truncated to
   * `uint8_t` by the return type, so the bits shifted out of the byte are lost
   * exactly as in an eight-bit shift. A left rotation by `n` bits; C defines it for
   * shifts up to 8 (a larger one makes `8 - n` negative).
   */
  function CircShift(u: bv8, n: bv8): bv8
    requires n <= 8
  {
    (u << n) | (u >> (8 - n))
  }

  /** `inv_circ_shift` (ops.c:101-104): `(byte >> n) | (byte << (8 - n))`, a right rotation. */
  function InvCircShift(u: bv8, n: bv8): bv8
    requires n <= 8
  {
    (u >> n) | (u << (8 - n))
  }

  /** The two circular shifts undo each other, in either order. */
  lemma CircShiftRoundTrip(u: bv8, n: bv8)
    requires n <= 8
    ensures InvCircShift(CircShift(u, n), n) == u
    ensures CircShift(InvCircShift(u, n), n) == u
  {
  }

  /** The affine map of `sub_bytes` (ops.c:162). */
  function Affine(s: bv8): bv8
  {
    s ^ CircShift(s, 1) ^ CircShift(s, 2) ^ CircShift(s, 3) ^ CircShift(s, 4) ^ ForwardMap
  }

  /** The affine map of `inv_sub_bytes` (ops.c:173). */
  function InvAffine(s: bv8): bv8
  {
    CircShift(s, 1) ^ CircShift(s, 3) ^ CircShift(s, 6) ^ InverseMap
  }

  /** The two affine maps are inverse bijections of the bytes. */
  lemma AffineRoundTrip(u: bv8)
    ensures InvAffine(Affine(u)) == u
    ensures Affine(InvAffine(u)) == u
  {
  }

  /** `sub_bytes` (ops.c:159-164). */
  function SubBytes(b: Byte): Byte
  {
    Affine(Inv(b) as bv8) as int
  }

  /** `inv_sub_bytes` (ops.c:171-176). */
  function InvSubBytes(s: Byte): Byte
  {
    Inv(InvAffine(s as bv8) as int)
  }

  /** `sub_bytes(0) == 0x63`: the inverse of 0 is 0 and the affine map adds 0x63. */
  lemma SubBytesZero()
    ensures SubBytes(0) == 0x63
  {
    InvZero();
    assert Affine(0) == 0x63;
  }

  /** `inv_sub_bytes` undoes `sub_bytes`, and the other way round: both are bijections. */
  lemma SubBytesRoundTrip(x: Byte)
    ensures InvSubBytes(SubBytes(x)) == x
    ensures SubBytes(InvSubBytes(x)) == x
  {
    var u := Inv(x) as bv8;
    BitsOfByte(Affine(u));
    AffineRoundTrip(u);
    ValueOfBits(Inv(x));
    InvInvolutive(x);
    var v := InvAffine(x as bv8);
    InvInvolutive(v as int);
    BitsOfByte(v);
    AffineRoundTrip(x as bv8);
    ValueOfBits(x);
  }

  // ---------------------------------------------------------------------------
  // sub_word

  /** `sub_word` (ops.c:183-197) as a value: every byte goes through `sub_bytes` in its own position. */
  function SubWord(w: Word): Word
  {
    Word(SubBytes(w.b0), SubBytes(w.b1), SubBytes(w.b2), SubBytes(w.b3))
  }

  /** Byte `r` of `sub_word(w)` is the S-box image of byte `r` of `w`. */
  lemma SubWordBytes(w: Word)
    ensures forall r :: 0 <= r < 4 ==> ByteOf(SubWord(w), r) == SubBytes(ByteOf(w, r))
  {
  }

  /**
   * The word `w` with lane `r` set to `v`: `w | (v << 8*r)` when lane `r` of `w` is
   * zero, as it is in `s_word` before the loop of `sub_word` fills it.
   */
  function WithByte(w: Word, r: nat, v: Byte): (u: Word)
    requires r < 4
    ensures ByteOf(u, r) == v
    ensures forall q :: 0 <= q < 4 && q != r ==> ByteOf(u, q) == ByteOf(w, q)
  {
    if r == 0 then w.(b0 := v) else if r == 1 then w.(b1 := v) else if r == 2 then w.(b2 := v) else w.(b3 := v)
  }

  /** The loop of `sub_word` (ops.c:183-197) computes `SubWord`. */
  method ComputeSubWord(word: Word) returns (sWord: Word)
    ensures sWord == SubWord(word)
  {
    sWord := Word(0, 0, 0, 0);
    var idx := 0;
    while idx < 4
      invariant 0 <= idx <= 4
      invariant forall r :: 0 <= r < idx ==> ByteOf(sWord, r) == SubBytes(ByteOf(word, r))
      invariant forall r :: idx <= r < 4 ==> ByteOf(sWord, r) == 0
    {
      var tmp := ByteOf(word, idx);
      tmp := SubBytes(tmp);
      sWord := WithByte(sWord, idx, tmp);
      idx := idx + 1;
    }
    assert ByteOf(sWord, 0) == SubBytes(word.b0) && ByteOf(sWord, 1) == SubBytes(word.b1);
    assert ByteOf(sWord, 2) == SubBytes(word.b2) && ByteOf(sWord, 3) == SubBytes(word.b3);
  }
}
