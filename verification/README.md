# uAES in Dafny

A model of uAES, a small AES encryption library for microcontrollers, and proofs
about that model. The model covers five parts:

- **Field arithmetic in GF(2^8).** `gf256_mul` is modelled as shift-and-add multiplication modulo
  x^8 + x^4 + x^3 + x + 1 (0x11B). `gf256_inv` is modelled as a linear search for the inverse.
  Both are loops in C, so both are methods here. Each is proved against a recursive reference
  definition (`Field.Mul`, `Inverse.Inv`), and the field laws are proved about those definitions.
- **The S-box.** `sub_bytes` is the inverse followed by the affine map built from `circ_shift`;
  `inv_sub_bytes` is the reverse. `sub_word` applies `sub_bytes` to each byte of a word.
- **Word and block transforms of ops.c.** `rotword`, `word_shift` and `inv_word_shift` are
  functions on four-byte words. `sub_block`, `shift_rows`, `mix_columns`, `add_round_key` and
  their inverses are in-place methods on an `array<Byte>`. Each method is specified by a function
  on the block's contents. Round-trip lemmas show that each transform is undone by its inverse.
- **The key schedule.** `rcon` and `key_expansion` are modelled. The expanded key is
  characterised as the unique word sequence that satisfies the key-schedule recurrence.
- **The uaes.c driver.** The static buffers `uaes_data_buf[65]` and `uaes_key_buf[33]` are the
  array fields of class `Uaes.State`. Its methods model:
  - `uaes_set_kbr` and `uaes_find_offset`;
  - the forward cipher over the first `find_offset(len)` 16-byte blocks of the data buffer, through
    a 17-byte local block;
  - the empty `uaes_inverse_cipher`;
  - the two entry points with their argument checks, zero padding and the copy to `out`.
- **The alignment macros of umem.h.** `uAES_ALIGN(x, a)` is modelled on a 64-bit `size_t`, with
  its wrap-around at 2^64. It is proved to round up to a multiple of a power-of-two boundary.

Integers are unbounded in Dafny. A byte is `Byte = x: int | 0 <= x < 256` and a word is four
bytes, least significant first. Each C bit operation is an explicit function on those values.
Where the C code truncates, as with the `uint8_t keyidx` of `add_round_key` and the `size_t`
additions of `uAES_ALIGN`, the model wraps explicitly.

## Model

| member | source | states |
|---|---|---|
| Field.Gf256Mul | ops.c:112-121 | the loop returns the GF(2^8) product `Mul(Na, Nb)` modulo 0x11B and runs at most 8 iterations |
| Field.MulLoopStep | ops.c:115-119 | one iteration keeps `prod ^ Na*Nb` invariant: add `Na` when the low bit of `Nb` is set, then double `Na` and halve `Nb` |
| Field.NextNaIsXTime | ops.c:118 | the update of `Na` (shift left, XOR 0x11B on carry, truncated to 8 bits) is multiplication by x |
| Field.XTimeXor | ops.c:118 | multiplication by x distributes over XOR |
| Field.MulZero | ops.c:112-121 | 0 absorbs on both sides |
| Field.MulOneRight | ops.c:112-121 | 1 is a right identity |
| Field.MulOneLeft | ops.c:112-121 | 1 is a left identity |
| Field.MulComm | ops.c:112-121 | the product is commutative |
| Field.MulXorLeft | ops.c:112-121 | multiplication distributes over XOR in its first argument |
| Field.MulXorRight | ops.c:112-121 | multiplication distributes over XOR in its second argument |
| Field.MulAssoc | ops.c:112-121 | the product is associative |
| Inverse.Gf256Inv | ops.c:128-140 | returns 0 for 0; otherwise returns the first `Ninv >= 1` whose product with `Na` is 1, which is a true inverse; the `uint8_t` counter never wraps before the break |
| Inverse.BelowPolynomial | ops.c:136 | reducing a byte `% 0x11B` leaves it unchanged, so the three reductions in the test have no effect |
| Inverse.InvZero | ops.c:130-131 | the inverse of 0 is taken to be 0 |
| Inverse.InvIsInverse | ops.c:134-139 | every non-zero byte has a two-sided, non-zero inverse, so the search ends at its break |
| Inverse.InvUnique | ops.c:134-139 | a byte `b` with `a*b == 1` is the value the search returns |
| Inverse.InvInvolutive | ops.c:128-140 | inverting twice gives the byte back |
| Inverse.InverseExists | ops.c:134-139 | every non-zero byte has some multiplicative inverse |
| Inverse.Logarithm | ops.c:134-139 | every non-zero byte is a power `3^k` with `k < 255`, the fact that gives each byte its inverse `3^(255-k)` |
| Inverse.PowerOrder | ops.c:134-139 | `3^255 == 1` in GF(2^8) |
| SBox.CircShiftRoundTrip | ops.c:90-104 | `inv_circ_shift(circ_shift(b, n), n) == b` and the reverse, for `n <= 8` |
| SBox.AffineRoundTrip | ops.c:159-176 | the affine map of `inv_sub_bytes` (XOR of rotations by 1, 3 and 6, then 0x05) inverts that of `sub_bytes` (XOR of rotations by 0 to 4, then 0x63), both ways |
| SBox.SubBytesZero | ops.c:159-164 | `sub_bytes(0) == 0x63` |
| SBox.SubBytesRoundTrip | ops.c:159-176 | `inv_sub_bytes` and `sub_bytes` undo each other on every byte |
| SBox.SubWordBytes | ops.c:183-197 | byte `r` of `sub_word(w)` is `sub_bytes` of byte `r` of `w` |
| SBox.ComputeSubWord | ops.c:183-197 | the byte-by-byte loop computes that substituted word |
| Words.PackBits | ops.c:326 | the word is the C packing `key[4i]`, `key[4i+1] << 8`, `key[4i+2] << 16` and `key[4i+3] << 24` OR-ed together, and `(uint8_t)(v >> 8*r)` reads byte `i + r` back |
| Words.XorWordBits | ops.c:349 | the byte-wise XOR is the 32-bit XOR of the packed words |
| Words.XorWordCancel | ops.c:349 | XOR with the same word twice is the identity |
| Words.RotWordBytes | ops.c:57-60 | `rotword` moves byte `r + 1` to byte `r` (mod 4) |
| Words.RotWordBits | ops.c:57-60 | on the 32-bit value, `rotword` is `w >> 8` OR `w << 24` |
| Words.WordShiftBytes | ops.c:68-71 | byte `r` of `word_shift(w, n)` is byte `r + n` (mod 4) of `w` |
| Words.WordShiftOneBits | ops.c:68-71 | for `n == 1` the model is the C expression `w >> 8` OR `w << 24` |
| Words.WordShiftTwoBits | ops.c:68-71 | for `n == 2` it is `w >> 16` OR `w << 16` |
| Words.WordShiftThreeBits | ops.c:68-71 | for `n == 3` it is `w >> 24` OR `w << 8` |
| Words.InvWordShiftBytes | ops.c:79-82 | byte `r` of `inv_word_shift(w, n)` is byte `r - n` (mod 4) of `w` |
| Words.InvWordShiftOneBits | ops.c:79-82 | for `n == 1` the model is `w << 8` OR `w >> 24` |
| Words.InvWordShiftTwoBits | ops.c:79-82 | for `n == 2` it is `w << 16` OR `w >> 16` |
| Words.InvWordShiftThreeBits | ops.c:79-82 | for `n == 3` it is `w << 24` OR `w >> 8` |
| Words.WordShiftRoundTrip | ops.c:68-82 | `word_shift` and `inv_word_shift` by the same `n` undo each other |
| Words.RotWordIsShift | ops.c:57-71 | `rotword` is `word_shift` by one byte |
| Columns.MixColumnRows | ops.c:281-284 | each output byte of a column is the dot product of the column with a row of the circulant matrix (02 03 01 01) |
| Columns.MixColumnRoundTrip | ops.c:281-307 | the column map of `inv_mix_columns` (0e 0b 0d 09) undoes that of `mix_columns` |
| Block.SubBlock | ops.c:204-211 | each of the first `4*Nb` bytes is replaced by its `sub_bytes` image; the rest of the block is unchanged |
| Block.InvSubBlock | ops.c:218-225 | the same with `inv_sub_bytes` |
| Block.SubstitutedRoundTrip | ops.c:204-225 | `inv_sub_block` undoes `sub_block` and vice versa |
| Block.ShiftRows | ops.c:232-245 | the block becomes `Shifted`: in row `r`, the byte at column `c` is the old byte at column `(c + r) mod 4` |
| Block.InvShiftRows | ops.c:252-265 | the block becomes `InvShifted`: column `(c - r) mod 4` moves to column `c` |
| Block.ShiftedCell | ops.c:232-245 | cell (`r`, `c`) after `shift_rows` is the old cell (`r`, `(c + r) mod 4`) |
| Block.InvShiftedCell | ops.c:252-265 | cell (`r`, `c`) after `inv_shift_rows` is the old cell (`r`, `(c - r) mod 4`) |
| Block.ShiftedRowZero | ops.c:232-265 | neither shift moves row 0 |
| Block.ShiftedRoundTrip | ops.c:232-265 | for `Nb == 4`, `inv_shift_rows` undoes `shift_rows` |
| Block.InvShiftedRoundTrip | ops.c:232-265 | for `Nb == 4`, `shift_rows` undoes `inv_shift_rows` |
| Block.ColumnwiseColumn | ops.c:279-286 | column `c < Nb` after the column loop is the column map applied to the old column `c`, read from the copy `tmp` |
| Block.MixColumns | ops.c:272-288 | the block becomes `Mixed`: each of the first `Nb` columns is replaced by its mix-column image, and the rest is unchanged |
| Block.InvMixColumns | ops.c:295-311 | the same with the inverse column map |
| Block.MixedRoundTrip | ops.c:272-311 | `inv_mix_columns` undoes `mix_columns` |
| Block.KeyIndexNoWrap | ops.c:366-376 | while `round*Nb + Nb <= 256`, column `C` takes schedule word `round*Nb + C`; beyond that the `uint8_t keyidx` wraps |
| Block.WithRoundKeyCell | ops.c:364-379 | byte `R` of column `C` becomes the old byte XOR byte `R` of schedule word `keyidx` |
| Block.WithRoundKeyTwice | ops.c:364-379 | adding the same round key twice restores the block |
| Block.WithRoundKeyReads | ops.c:364-379 | the result depends only on the schedule words of that round |
| Block.AddRoundKey | ops.c:364-379 | the block becomes `WithRoundKey` of the old block and the schedule |
| KeySchedule.RconValues | ops.c:147-152 | `rcon(1..10)` has 01 02 04 08 10 20 40 80 1b 36 in its top byte |
| KeySchedule.RconIsPowerOfX | ops.c:147-152 | each round constant is the one before it times x in GF(2^8), starting from 1 |
| KeySchedule.RconBits | ops.c:150 | the model equals the C expression `0x01000000 << (val - 1)`, or 0x1b000000 for 9 and 0x36000000 for 10 |
| KeySchedule.DivMod | ops.c:335-341 | the `%` and `/` of `size_t` satisfy `x == (x / n)*n + x % n` with `x % n < n` |
| KeySchedule.RconIndex | ops.c:341 | every `idx / Nk` passed to `rcon` lies in 1..10 |
| KeySchedule.ScheduleExtend | ops.c:331-352 | appending the next word computed by the loop body keeps a prefix of the schedule |
| KeySchedule.Schedule | ops.c:320-355 | the first `n` schedule words satisfy the recurrence |
| KeySchedule.ScheduleRecurrence | ops.c:324-352 | word `i < Nk` is key bytes `4i .. 4i+3`, and every later word is `w[i-Nk] ^ temp(w[i-1])` |
| KeySchedule.ScheduleUnique | ops.c:320-355 | two sequences that satisfy the recurrence for keys with the same first `4*Nk` bytes are equal |
| KeySchedule.ScheduleKeyPrefix | ops.c:324-328 | only the first `4*Nk` key bytes affect the schedule |
| KeySchedule.KeyExpansion | ops.c:320-355 | `keysched[0 .. max(Nk, Ns))` becomes the schedule of the key; the rest of the array is unchanged |
| KeySchedule.CopyKey | ops.c:324-328 | the first loop writes the `Nk` key words |
| KeySchedule.ExpandWords | ops.c:330-352 | the second loop writes words `Nk .. Ns` of the schedule |
| Uaes.KbrOf | uaes.c:62-92 | (Nk, Nb, Nr) is (4, 4, 10) for UAES128, (6, 4, 12) for UAES192, and (8, 4, 14) for UAES256 and for any other value; the schedule fits `kschd` |
| Uaes.SetKbr | uaes.c:62-92 | the switch returns those parameters |
| Uaes.FindOffset | uaes.c:99-116 | the number of whole 16-byte blocks in the data, capped at 3 |
| Uaes.FirstRound | uaes.c:139 | the block is XORed with round key 0 |
| Uaes.MiddleRound | uaes.c:140-150 | one round: `sub_block`, `shift_rows`, `mix_columns`, then `add_round_key` of that round |
| Uaes.LastRound | uaes.c:151-155 | the final round has no `mix_columns` |
| Uaes.EncryptBlock | uaes.c:139-155 | the block becomes `Cipher` of the old block |
| Uaes.CipherInverse | uaes.c:139-155 | the cipher is injective: undoing each transform in reverse order gives the block back |
| Uaes.CipherTail | uaes.c:128-155 | the cipher leaves the 17th byte of the local block unchanged |
| Uaes.ExpandedKeyPrefix | uaes.c:129-134 | the schedule in the zero-filled `kschd` depends only on the first `4*Nk` bytes of the key buffer |
| Uaes.ExpandedKeyFits | uaes.c:129-134 | that schedule covers every round key the cipher reads |
| Uaes.EncryptedBlocks | uaes.c:135-159 | after `n` iterations, each block `k < n` of the data buffer is the cipher of the original block `k` |
| Uaes.EncryptedTail | uaes.c:135-159 | the bytes from `16*n` on are untouched |
| Uaes.LoadedUnencrypted | uaes.c:135-159 | iteration `n` loads the original, not yet enciphered, block `n` |
| Uaes.StrLen | uaes.c:202-203 | `strlen` is the index of the first zero byte |
| Uaes.State.constructor | uaes.c:27-28 | the two static buffers, 65 and 33 bytes long and zero-initialised |
| Uaes.State.ForwardCipher | uaes.c:126-161 | the data buffer becomes `Encrypted`: its first `find_offset(len)` blocks are enciphered under the schedule of the key buffer, and the rest is unchanged |
| Uaes.State.EncryptBlocks | uaes.c:135-160 | the `kdx` loop enciphers blocks `0 .. offset` in order |
| Uaes.State.EncryptNext | uaes.c:137-158 | one iteration extends the enciphered prefix by block `kdx` |
| Uaes.State.LoadBlock | uaes.c:128-137 | `memcpy` of block `kdx` into the local block: its first 16 bytes are data bytes `16*kdx .. 16*kdx+15`, and its 17th byte keeps the zero of the initialiser |
| Uaes.State.StoreBlock | uaes.c:157 | `memcpy` of the local block back to block `kdx` |
| Uaes.State.Expand | uaes.c:129-134 | a fresh zero-filled `kschd` receives the key expansion of the key buffer |
| Uaes.State.InverseCipher | uaes.c:163-167 | the stub changes nothing |
| Uaes.State.LoadBuffers | uaes.c:212-215 | both buffers are zeroed and then receive the input and the key: the data buffer holds the first `dataLen` input bytes followed by zeros up to 65 bytes, and the key buffer the first `keyLen` key bytes followed by zeros up to 33 |
| Uaes.State.CopyOut | uaes.c:219 | the first `n` bytes of the data buffer are copied to `out`; the rest of `out` is unchanged |
| Uaes.State.Encryption | uaes.c:184-224 | returns -1 with nothing changed for a NULL pointer, a key length outside 0..3, an input over 64 bytes or a key over 32; otherwise returns 0, and `out` receives the first `strlen(in)` bytes of the enciphered, zero-padded buffer |
| Uaes.State.Decryption | uaes.c:226-266 | the same checks; on success `out` receives the input bytes unchanged, because the inverse cipher is empty |
| Umem.And | umem.h:25 | bitwise AND is at most either operand |
| Umem.AlignRoundsDown | umem.h:25-26 | `uAES_ALIGN(x, 2^k)` is `2^k * floor(((x + 2^k - 1) mod 2^64) / 2^k)` |
| Umem.AlignMultiple | umem.h:25-26 | for a power-of-two boundary `a`, the result is a multiple of `a` |
| Umem.AlignBounds | umem.h:25-26 | without overflow, `x <= result < x + a`; when `x + a - 1` wraps, the result is below `x` |
| Umem.AlignIdentity | umem.h:25-26 | a multiple of `a` is unchanged |
| Umem.AlignIdempotent | umem.h:25-26 | aligning twice is the same as aligning once |
| Umem.DefaultAlign | umem.h:23-26 | `uAES_ALIGN_MASK == 3` and `uAES_ALIGN_BNDRY == 4 == 2^2`; aligning to it gives a multiple of 4 within `x .. x+3` when there is no overflow |

## Left out

- Tracing is not modelled: `UAES_TRACE`, `UAES_TRACE_BLOCK`, `set_trace_msk` and udbg.h only produce output.
- The allocator hooks of umem.c and umem.h are not modelled. They are calls into code the system integrator supplies.
- The test programs under `uaes_tests` are not modelled.
- Words.WordShift: `word_shift(w, 0)` shifts a 32-bit value by 32, which is undefined in C. The model uses the evident intent, the identity, and `inv_word_shift(w, 0)` likewise.
- KeySchedule.RconByte: `0x01000000 << (val - 1)` is a shift of a signed `int`. `rcon(0)` shifts by -1, `rcon(8)` gives 2^31, which overflows `int`, and `rcon(11..255)` overflows as well; all of these are undefined in C. The model reads `rcon(1..10)` as unsigned 32-bit arithmetic, which gives 0x80000000 for `rcon(8)`, and requires `1 <= val <= 10`, which `ExpansionFits` guarantees for every call `key_expansion` makes.
- The packing expressions `block[C + 12] << 24` (ops.c:237, 257), `key[4*idx + 3] << 24` (ops.c:326) and `block[4*C + 3] << 24` (ops.c:370) shift a `uint8_t` promoted to signed `int`, which overflows when the top byte is 0x80 or more. The model reads every such shift as unsigned 32-bit arithmetic, the value the cast to `uint32_t` evidently intends.
- KeySchedule.KeyExpansion requires `Ns <= 11*Nk`, so that every round constant stays within `rcon`'s defined range. `uaes.c` always meets this.
- Inverse.Gf256Inv: the `uint8_t` loop guard `Ninv < 0x11B` is always true. The model follows the loop to its break, which every non-zero byte reaches before `Ninv` would wrap.
- Block.ShiftedRoundTrip and Block.InvShiftedRoundTrip are stated for `Nb == 4` only, because no other width has the round trip: for `Nb < 4`, `shift_rows` rotates each row within all four columns but writes back only the first `Nb` of them, so bytes are lost (for `Nb == 2`, byte 1 of the round trip is old byte 13). The methods themselves are specified for every `Nb <= 4`.
- Uaes.EncryptBlock and the round methods require `Nb == 4`, which `uaes_set_kbr` always sets.
- Uaes.CipherInverse is proved about an independent reference `Decipher`, not about a C function: `uaes_inverse_cipher` is empty, and no inverse-cipher driver is invented.
- A C string is an `Option` of its bytes that holds a terminating zero. `NULL` is `None`. A pointer to memory without a terminator, which `strlen` would read past, is excluded by a precondition.
- `out` must be distinct from the two static buffers and at least `strlen(in)` bytes long. The C code relies on both.
- Umem: `size_t` is fixed at 64 bits. The macro uses `typeof(x)`, which makes it generic over the width.
- Umem.AlignMultiple, Umem.AlignBounds, Umem.AlignIdentity and Umem.AlignIdempotent are stated for power-of-two boundaries below 2^64 only. For other boundaries the macro does not round to a multiple.
- The trailing `;` of the `uAES_ALIGN` macro belongs to the macro text, not to its value, and is not modelled.
- `sub_word` is passed to the key-schedule functions as the parameter `sub`, and `KeyExpansion` instantiates it with `SubWord`.
- The shared loops `Block.MapBytes` and `Block.MapColumns` implement the substitution loops and the two column loops once, with the byte map or column map as a parameter.
