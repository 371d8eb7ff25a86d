/**
 * The encryption interface of uaes.c: the key-size table, the block count, the
 * forward cipher over the first blocks of the static data buffer, and the two
 * entry points with their argument checks and copies in and out.
 *
 * A C string argument is an `Option` of its bytes (`None` is `NULL`) and must hold
 * a terminating zero, which is what `strlen` needs; `out` is an array the caller
 * owns, distinct from the two static buffers, which are the fields of `State`.
 */
module Uaes {
  import opened Bits
  import opened Words
  import opened Block
  import opened SBox
  import opened KeySchedule

  /** `UAES_MAX_DATA_LEN` (uaes.c:21). */
  const MaxDataLen: nat := 64
  /** `UAES_MAX_KEY_LEN` (uaes.c:22). */
  const MaxKeyLen: nat := 32
  /** `UAES_MAX_BLOCK_LEN` (uaes.c:23). */
  const BlockLen: nat := 16
  /** `UAES_MAX_KSCHD_LEN` (uaes.c:24). */
  const MaxKschdLen: nat := 60

  /** The enumerators of `key_length_t` (uaes.h:14-20). */
  const Uaes128: int := 0
  const Uaes192: int := 1
  const Uaes256: int := 2
  const UaesRng: int := 3

  /** A pointer argument: `None` is `NULL`. */
  datatype Option<T> = None | Some(value: T)

  // ---------------------------------------------------------------------------
  // uaes_set_kbr, uaes_find_offset

  /** Key length in words, block length in words and number of rounds. */
  datatype Kbr = Kbr(Nk: nat, Nb: nat, Nr: nat)

  /**
   * What the forward cipher needs of its parameters: four-word blocks, a key of at
   * most `UAES_MAX_KEY_LEN + 1` bytes, at least one round, and a schedule of
   * `Nb*(Nr+1)` words that fits `kschd` and whose round constants stay within
   * `rcon(1) .. rcon(10)`.
   */
  predicate KbrFits(Nk: nat, Nb: nat, Nr: nat)
  {
    Nb == 4 && 1 <= Nr && ExpansionFits(MaxKeyLen + 1, MaxKschdLen + 1, Nk, 4 * (Nr + 1))
  }

  /**
   * The parameters `uaes_set_kbr` (uaes.c:62-92) chooses: AES-128, AES-192 and
   * AES-256 for `UAES128`, `UAES192` and `UAES256`, and AES-256 for any other value.
   */
  function KbrOf(keyLength: int): (p: Kbr)
    ensures p.Nb == 4 && p.Nr == p.Nk + 6 && KbrFits(p.Nk, p.Nb, p.Nr)
    ensures p.Nb * (p.Nr + 1) <= MaxKschdLen
    ensures p.Nk == 4 <==> keyLength == Uaes128
    ensures p.Nk == 6 <==> keyLength == Uaes192
    ensures p.Nk == 8 <==> keyLength != Uaes128 && keyLength != Uaes192
  {
    if keyLength == Uaes128 then Kbr(4, 4, 10)
    else if keyLength == Uaes192 then Kbr(6, 4, 12)
    else Kbr(8, 4, 14)
  }

  /** `uaes_set_kbr` (uaes.c:62-92), which writes the three parameters through pointers. */
  method SetKbr(keyLength: int) returns (Nk: nat, Nb: nat, Nr: nat)
    ensures Kbr(Nk, Nb, Nr) == KbrOf(keyLength)
  {
    if keyLength == Uaes128 {
      Nk, Nb, Nr := 4, 4, 10;
    } else if keyLength == Uaes192 {
      Nk, Nb, Nr := 6, 4, 12;
    } else if keyLength == Uaes256 {
      Nk, Nb, Nr := 8, 4, 14;
    } else {
      Nk, Nb, Nr := 8, 4, 14;
    }
  }

  /**
   * `uaes_find_offset` (uaes.c:99-116): the number of whole 16-byte blocks in
   * `dataLength` bytes, but at most 3.
   */
  function FindOffset(dataLength: nat): (offset: nat)
    ensures offset <= 3 && BlockLen * offset <= dataLength
    ensures offset < 3 ==> dataLength < BlockLen * (offset + 1)
  {
    if dataLength >= 48 then 3
    else if dataLength >= 32 && dataLength < 48 then 2
    else if dataLength >= 16 && dataLength < 32 then 1
    else 0
  }

  // ---------------------------------------------------------------------------
  // The cipher on one block

  /**
   * What the rounds need of a block and a schedule `ks`: the 16 bytes of the state,
   * at least one round, and the `4*(Nr+1)` words the round keys read, whose indices
   * stay below 256 so that the `uint8_t` word index of `add_round_key` never wraps.
   */
  predicate CipherFits(len: nat, ks: seq<Word>, Nr: nat)
  {
    BlockLen <= len && 1 <= Nr && 4 * Nr + 4 <= |ks| && 4 * Nr + 4 <= 0x100
  }

  /** Every round key of a cipher that fits lies in the schedule. */
  lemma RoundFits(len: nat, ks: seq<Word>, Nr: nat, round: nat)
    requires CipherFits(len, ks, Nr) && round <= Nr
    ensures RoundKeyFits(len, ks, round, 4)
  {
    forall C | 0 <= C < 4
      ensures KeyIndex(round, 4, C) < |ks|
    {
      KeyIndexNoWrap(round, 4, C);
    }
  }

  /** One of the middle rounds (uaes.c:140-150): substitute, shift the rows, mix the columns, add round key `round`. */
  function Round(s: seq<Byte>, ks: seq<Word>, Nr: nat, round: nat): (t: seq<Byte>)
    requires CipherFits(|s|, ks, Nr) && round < Nr
    ensures |t| == |s|
  {
    RoundFits(|s|, ks, Nr, round);
    WithRoundKey(Mixed(Shifted(Substituted(s, 4), 4), 4), ks, round, 4)
  }

  /** The state after the middle rounds `1 .. n`. */
  function Rounds(s: seq<Byte>, ks: seq<Word>, Nr: nat, n: nat): (t: seq<Byte>)
    requires CipherFits(|s|, ks, Nr) && n < Nr
    ensures |t| == |s|
  {
    if n == 0 then s else Round(Rounds(s, ks, Nr, n - 1), ks, Nr, n)
  }

  /** The last round (uaes.c:151-155): substitute, shift the rows, add round key `Nr`; no column mixing. */
  function FinalRound(s: seq<Byte>, ks: seq<Word>, Nr: nat): (t: seq<Byte>)
    requires CipherFits(|s|, ks, Nr)
    ensures |t| == |s|
  {
    RoundFits(|s|, ks, Nr, Nr);
    WithRoundKey(Shifted(Substituted(s, 4), 4), ks, Nr, 4)
  }

  /** The cipher of one block (uaes.c:139-155): round key 0, the middle rounds, the last round. */
  function Cipher(s: seq<Byte>, ks: seq<Word>, Nr: nat): (t: seq<Byte>)
    requires CipherFits(|s|, ks, Nr)
    ensures |t| == |s|
  {
    RoundFits(|s|, ks, Nr, 0);
    FinalRound(Rounds(WithRoundKey(s, ks, 0, 4), ks, Nr, Nr - 1), ks, Nr)
  }

  /** The initial round key on the local `block` (uaes.c:139). */
  method FirstRound(block: array<Byte>, kschd: array<Word>, Nb: nat, Nr: nat)
    requires Nb == 4 && CipherFits(block.Length, kschd[..], Nr)
    modifies block
    ensures block[..] == WithRoundKey(old(block[..]), kschd[..], 0, 4)
  {
    RoundFits(block.Length, kschd[..], Nr, 0);
    AddRoundKey(block, kschd, 0, Nb);
  }

  /** A middle round undone: round key, inverse column mixing, inverse row shift, inverse S-box. */
  function InvRound(s: seq<Byte>, ks: seq<Word>, Nr: nat, round: nat): (t: seq<Byte>)
    requires CipherFits(|s|, ks, Nr) && round < Nr
    ensures |t| == |s|
  {
    RoundFits(|s|, ks, Nr, round);
    InvSubstituted(InvShifted(InvMixed(WithRoundKey(s, ks, round, 4), 4), 4), 4)
  }

  /** The middle rounds `n, n-1, .., 1` undone. */
  function InvRounds(s: seq<Byte>, ks: seq<Word>, Nr: nat, n: nat): (t: seq<Byte>)
    requires CipherFits(|s|, ks, Nr) && n < Nr
    ensures |t| == |s|
    decreases n
  {
    if n == 0 then s else InvRounds(InvRound(s, ks, Nr, n), ks, Nr, n - 1)
  }

  /**
   * The inverse of `Cipher` built from the inverse transforms of ops.c
   * (`inv_sub_block`, `inv_shift_rows`, `inv_mix_columns`, `add_round_key`);
   * `uaes_inverse_cipher` itself is an empty stub and does not compute it.
   */
  function Decipher(s: seq<Byte>, ks: seq<Word>, Nr: nat): (t: seq<Byte>)
    requires CipherFits(|s|, ks, Nr)
    ensures |t| == |s|
  {
    RoundFits(|s|, ks, Nr, 0);
    RoundFits(|s|, ks, Nr, Nr);
    var u := InvSubstituted(InvShifted(WithRoundKey(s, ks, Nr, 4), 4), 4);
    WithRoundKey(InvRounds(u, ks, Nr, Nr - 1), ks, 0, 4)
  }

  /** Each middle round is undone by `InvRound`. */
  lemma RoundInverse(s: seq<Byte>, ks: seq<Word>, Nr: nat, round: nat)
    requires CipherFits(|s|, ks, Nr) && round < Nr
    ensures InvRound(Round(s, ks, Nr, round), ks, Nr, round) == s
  {
    RoundFits(|s|, ks, Nr, round);
    var a := Substituted(s, 4);
    var b := Shifted(a, 4);
    var c := Mixed(b, 4);
    WithRoundKeyTwice(c, ks, round, 4);
    MixedRoundTrip(b, 4);
    ShiftedRoundTrip(a);
    SubstitutedRoundTrip(s, 4);
  }

  /** The middle rounds are undone by `InvRounds`. */
  lemma {:induction false} RoundsInverse(s: seq<Byte>, ks: seq<Word>, Nr: nat, n: nat)
    requires CipherFits(|s|, ks, Nr) && n < Nr
    ensures InvRounds(Rounds(s, ks, Nr, n), ks, Nr, n) == s
  {
    if n > 0 {
      var p := Rounds(s, ks, Nr, n - 1);
      RoundInverse(p, ks, Nr, n);
      RoundsInverse(s, ks, Nr, n - 1);
    }
  }

  /** `Decipher` undoes `Cipher`: the forward cipher loses no information. */
  lemma CipherInverse(s: seq<Byte>, ks: seq<Word>, Nr: nat)
    requires CipherFits(|s|, ks, Nr)
    ensures Decipher(Cipher(s, ks, Nr), ks, Nr) == s
  {
    RoundFits(|s|, ks, Nr, 0);
    RoundFits(|s|, ks, Nr, Nr);
    var a := WithRoundKey(s, ks, 0, 4);
    var r := Rounds(a, ks, Nr, Nr - 1);
    var b := Substituted(r, 4);
    var c := Shifted(b, 4);
    WithRoundKeyTwice(c, ks, Nr, 4);
    ShiftedRoundTrip(b);
    SubstitutedRoundTrip(r, 4);
    RoundsInverse(a, ks, Nr, Nr - 1);
    WithRoundKeyTwice(s, ks, 0, 4);
  }

  /** A middle round leaves the bytes past the 16-byte state as they were. */
  lemma RoundTail(s: seq<Byte>, ks: seq<Word>, Nr: nat, round: nat)
    requires CipherFits(|s|, ks, Nr) && round < Nr
    ensures forall i :: BlockLen <= i < |s| ==> Round(s, ks, Nr, round)[i] == s[i]
  {
    RoundFits(|s|, ks, Nr, round);
    var a := Substituted(s, 4);
    var b := Shifted(a, 4);
    var c := Mixed(b, 4);
    assert forall i :: BlockLen <= i < |s| ==> !InGrid(i, 4) && a[i] == s[i];
    assert forall i :: BlockLen <= i < |s| ==> b[i] == a[i] && c[i] == b[i];
  }

  /** The middle rounds leave the bytes past the state as they were. */
  lemma {:induction false} RoundsTail(s: seq<Byte>, ks: seq<Word>, Nr: nat, n: nat)
    requires CipherFits(|s|, ks, Nr) && n < Nr
    ensures forall i :: BlockLen <= i < |s| ==> Rounds(s, ks, Nr, n)[i] == s[i]
  {
    if n > 0 {
      RoundsTail(s, ks, Nr, n - 1);
      RoundTail(Rounds(s, ks, Nr, n - 1), ks, Nr, n);
    }
  }

  /**
   * The cipher changes only the 16 bytes of the state; the spare byte of the
   * 17-byte `block` of `uaes_foward_cipher` keeps its value.
   */
  lemma CipherTail(s: seq<Byte>, ks: seq<Word>, Nr: nat)
    requires CipherFits(|s|, ks, Nr)
    ensures forall i :: BlockLen <= i < |s| ==> Cipher(s, ks, Nr)[i] == s[i]
  {
    RoundFits(|s|, ks, Nr, 0);
    RoundFits(|s|, ks, Nr, Nr);
    var a := WithRoundKey(s, ks, 0, 4);
    var r := Rounds(a, ks, Nr, Nr - 1);
    RoundsTail(a, ks, Nr, Nr - 1);
    var b := Substituted(r, 4);
    var c := Shifted(b, 4);
    assert forall i :: BlockLen <= i < |s| ==> !InGrid(i, 4) && a[i] == s[i] && b[i] == r[i];
    assert forall i :: BlockLen <= i < |s| ==> c[i] == b[i];
  }

  /** A middle round on the local `block` (uaes.c:140-150). */
  method MiddleRound(block: array<Byte>, kschd: array<Word>, Nb: nat, Nr: nat, round: nat)
    requires Nb == 4 && CipherFits(block.Length, kschd[..], Nr) && round < Nr
    modifies block
    ensures block[..] == Round(old(block[..]), kschd[..], Nr, round)
  {
    RoundFits(block.Length, kschd[..], Nr, round);
    SubBlock(block, Nb);
    ShiftRows(block, Nb);
    MixColumns(block, Nb);
    AddRoundKey(block, kschd, round, Nb);
  }

  /** The last round on the local `block` (uaes.c:151-155). */
  method LastRound(block: array<Byte>, kschd: array<Word>, Nb: nat, Nr: nat)
    requires Nb == 4 && CipherFits(block.Length, kschd[..], Nr)
    modifies block
    ensures block[..] == FinalRound(old(block[..]), kschd[..], Nr)
  {
    RoundFits(block.Length, kschd[..], Nr, Nr);
    SubBlock(block, Nb);
    ShiftRows(block, Nb);
    AddRoundKey(block, kschd, Nr, Nb);
  }

  /**
   * The rounds of `uaes_foward_cipher` on the local `block` (uaes.c:139-155), with
   * `Nb == 4` as `uaes_set_kbr` always sets it.
   */
  method EncryptBlock(block: array<Byte>, kschd: array<Word>, Nb: nat, Nr: nat)
    requires Nb == 4 && CipherFits(block.Length, kschd[..], Nr)
    modifies block
    ensures block[..] == Cipher(old(block[..]), kschd[..], Nr)
  {
    ghost var ks := kschd[..];
    RoundFits(block.Length, ks, Nr, 0);
    ghost var s := WithRoundKey(block[..], ks, 0, 4);
    FirstRound(block, kschd, Nb, Nr);
    var round := 1;
    while round < Nr
      invariant 1 <= round <= Nr
      invariant block[..] == Rounds(s, ks, Nr, round - 1)
    {
      MiddleRound(block, kschd, Nb, Nr, round);
      round := round + 1;
    }
    LastRound(block, kschd, Nb, Nr);
  }

  // ---------------------------------------------------------------------------
  // The forward cipher over the data buffer

  /** `n` zero words. */
  function ZeroWords(n: nat): (z: seq<Word>)
    ensures |z| == n
  {
    seq(n, _ => Word(0, 0, 0, 0))
  }

  /** `kschd` after `key_expansion` in `uaes_foward_cipher`: the schedule, then zero words. */
  function ExpandedKey(key: seq<Byte>, Nk: nat, Nr: nat): (ks: seq<Word>)
    requires KbrFits(Nk, 4, Nr) && |key| == MaxKeyLen + 1
    ensures |ks| == MaxKschdLen + 1
  {
    Overwrite(ZeroWords(MaxKschdLen + 1), Schedule(key, Nk, Max(Nk, 4 * (Nr + 1)), SubWord), Max(Nk, 4 * (Nr + 1)))
  }

  /** Only the first `4*Nk` bytes of the key buffer reach the schedule. */
  lemma ExpandedKeyPrefix(key: seq<Byte>, key': seq<Byte>, Nk: nat, Nr: nat)
    requires KbrFits(Nk, 4, Nr) && |key| == MaxKeyLen + 1 && |key'| == MaxKeyLen + 1
    requires key[..4 * Nk] == key'[..4 * Nk]
    ensures ExpandedKey(key, Nk, Nr) == ExpandedKey(key', Nk, Nr)
  {
    ScheduleKeyPrefix(key, key', Nk, Max(Nk, 4 * (Nr + 1)), SubWord);
  }

  /** The expanded key holds every round key the cipher reads. */
  lemma ExpandedKeyFits(key: seq<Byte>, Nk: nat, Nr: nat)
    requires KbrFits(Nk, 4, Nr) && |key| == MaxKeyLen + 1
    ensures CipherFits(BlockLen + 1, ExpandedKey(key, Nk, Nr), Nr)
  {
  }

  /** The local `block` of `uaes_foward_cipher`: a 16-byte state and a spare byte. */
  type CipherBlock = b: seq<Byte> | |b| == BlockLen + 1 witness seq(BlockLen + 1, _ => 0)

  /** Block `k` of `data` as `uaes_foward_cipher` loads it into its `block`, before a zero byte. */
  function LoadedBlock(data: seq<Byte>, k: nat): (b: CipherBlock)
    requires BlockLen * k + BlockLen <= |data|
    ensures b[..BlockLen] == data[BlockLen * k..BlockLen * k + BlockLen] && b[BlockLen] == 0
  {
    data[BlockLen * k..BlockLen * k + BlockLen] + [0]
  }

  /** The cipher under the schedule `ks` with `Nr` rounds, as a transform of the local `block`. */
  function CipherOf(ks: seq<Word>, Nr: nat): CipherBlock -> CipherBlock
    requires CipherFits(BlockLen + 1, ks, Nr)
  {
    b => Cipher(b, ks, Nr)
  }

  /** `data` with the 16 bytes of block `k` overwritten by the first 16 bytes of `c`. */
  function WithBlock(data: seq<Byte>, k: nat, c: CipherBlock): (r: seq<Byte>)
    requires BlockLen * k + BlockLen <= |data|
    ensures |r| == |data|
  {
    seq(|data|, i requires 0 <= i < |data| =>
      if BlockLen * k <= i < BlockLen * k + BlockLen then c[i - BlockLen * k] else data[i])
  }

  /**
   * `data` after the first `n` passes of the block loop of `uaes_foward_cipher`,
   * with the block transform `enc`: each of its first `n` 16-byte blocks, in turn,
   * replaced by its image.
   */
  function Encrypted(data: seq<Byte>, enc: CipherBlock -> CipherBlock, n: nat): (r: seq<Byte>)
    requires BlockLen * n <= |data|
    ensures |r| == |data|
    decreases n
  {
    if n == 0 then data
    else WithBlock(Encrypted(data, enc, n - 1), n - 1, enc(LoadedBlock(data, n - 1)))
  }

  /** Enciphering block `n` of `Encrypted(data, CipherOf(ks, Nr), n)` in place gives the encryption of `n + 1` blocks. */
  lemma EncryptedNext(data: seq<Byte>, ks: seq<Word>, Nr: nat, n: nat, c: CipherBlock)
    requires BlockLen * n + BlockLen <= |data| && CipherFits(BlockLen + 1, ks, Nr)
    requires c == Cipher(LoadedBlock(data, n), ks, Nr)
    ensures WithBlock(Encrypted(data, CipherOf(ks, Nr), n), n, c) == Encrypted(data, CipherOf(ks, Nr), n + 1)
  {
    assert CipherOf(ks, Nr)(LoadedBlock(data, n)) == c;
  }

  /** The bytes of `Encrypted(data, enc, n)` from `16*n` on are those of `data`. */
  lemma {:induction false} EncryptedTail(data: seq<Byte>, enc: CipherBlock -> CipherBlock, n: nat)
    requires BlockLen * n <= |data|
    ensures forall i :: BlockLen * n <= i < |data| ==> Encrypted(data, enc, n)[i] == data[i]
    decreases n
  {
    if n > 0 {
      EncryptedTail(data, enc, n - 1);
    }
  }

  /**
   * Block `k < n` of `Encrypted(data, enc, n)` is the image of block `k` of `data`,
   * whatever the other blocks hold: blocks are enciphered independently.
   */
  lemma {:induction false} EncryptedBlocks(data: seq<Byte>, enc: CipherBlock -> CipherBlock, n: nat, k: nat)
    requires BlockLen * n <= |data| && k < n
    ensures forall j :: 0 <= j < BlockLen ==> Encrypted(data, enc, n)[BlockLen * k + j] == enc(LoadedBlock(data, k))[j]
    decreases n
  {
    if k < n - 1 {
      EncryptedBlocks(data, enc, n - 1, k);
    }
  }

  /** Block `n` is still plaintext after the first `n` blocks are encrypted. */
  lemma LoadedUnencrypted(data: seq<Byte>, enc: CipherBlock -> CipherBlock, n: nat)
    requires BlockLen * n + BlockLen <= |data|
    ensures LoadedBlock(Encrypted(data, enc, n), n) == LoadedBlock(data, n)
  {
    var e := Encrypted(data, enc, n);
    EncryptedTail(data, enc, n);
    assert e[BlockLen * n..BlockLen * n + BlockLen] == data[BlockLen * n..BlockLen * n + BlockLen];
  }

  // ---------------------------------------------------------------------------
  // Strings and buffers

  /** A C string: some byte is the terminating zero. */
  predicate Terminated(s: seq<Byte>)
  {
    0 in s
  }

  /** `strlen`: the index of the first zero byte. */
  function StrLen(s: seq<Byte>): (n: nat)
    requires Terminated(s)
    ensures n < |s| && s[n] == 0
    ensures forall i :: 0 <= i < n ==> s[i] != 0
  {
    if s[0] == 0 then 0 else
      assert s == [s[0]] + s[1..];
      1 + StrLen(s[1..])
  }

  /** A buffer of `len` bytes after `memset` to zero and `memcpy` of the first `n` bytes of `s`. */
  function Padded(s: seq<Byte>, n: nat, len: nat): (b: seq<Byte>)
    requires n <= |s| && n <= len
    ensures |b| == len
    ensures b[..n] == s[..n]
    ensures forall i :: n <= i < len ==> b[i] == 0
  {
    seq(len, i requires 0 <= i < len => if i < n then s[i] else 0)
  }

  /** The argument check of uaes.c:195-200: both pointers given, `key_length` in `UAES128 .. UAESRNG`. */
  predicate ArgsValid(input: Option<seq<Byte>>, key: Option<seq<Byte>>, keyLength: int)
  {
    input.Some? && key.Some? && Uaes128 <= keyLength <= UaesRng
  }

  /** Both checks of uaes.c:195-209: the arguments are valid and neither string is too long. */
  predicate Accepted(input: Option<seq<Byte>>, key: Option<seq<Byte>>, keyLength: int)
    requires ArgsValid(input, key, keyLength) ==> Terminated(input.value) && Terminated(key.value)
  {
    ArgsValid(input, key, keyLength) && StrLen(input.value) <= MaxDataLen && StrLen(key.value) <= MaxKeyLen
  }

  /** The static state of uaes.c: `uaes_data_buf` and `uaes_key_buf` (uaes.c:27-28). */
  class State {
    var dataBuf: array<Byte>
    var keyBuf: array<Byte>

    /** The two buffers have their sizes and are distinct. */
    predicate Valid()
      reads this
    {
      dataBuf.Length == MaxDataLen + 1 && keyBuf.Length == MaxKeyLen + 1 && dataBuf != keyBuf
    }

    /** The buffers as the program starts, all zero. */
    constructor()
      ensures Valid() && fresh(dataBuf) && fresh(keyBuf)
      ensures forall i :: 0 <= i < dataBuf.Length ==> dataBuf[i] == 0
      ensures forall i :: 0 <= i < keyBuf.Length ==> keyBuf[i] == 0
    {
      dataBuf := new Byte[MaxDataLen + 1](_ => 0);
      keyBuf := new Byte[MaxKeyLen + 1](_ => 0);
    }

    /**
     * `uaes_foward_cipher` (uaes.c:126-161): expand the key buffer into `kschd`, then
     * replace each of the first `uaes_find_offset(dataLength)` 16-byte blocks of the
     * data buffer by its cipher.
     */
    method ForwardCipher(dataLength: nat, Nk: nat, Nb: nat, Nr: nat)
      requires Valid() && KbrFits(Nk, Nb, Nr)
      modifies dataBuf
      ensures dataBuf[..] == Encrypted(old(dataBuf[..]), CipherOf(ExpandedKey(keyBuf[..], Nk, Nr), Nr), FindOffset(dataLength))
    {
      var kschd := Expand(keyBuf, Nk, Nb, Nr);
      ExpandedKeyFits(keyBuf[..], Nk, Nr);
      var offset := FindOffset(dataLength);
      EncryptBlocks(dataBuf, kschd, offset, Nb, Nr);
    }

    /**
     * The block loop of `uaes_foward_cipher` (uaes.c:135-160): block `kdx` of the data
     * buffer is copied into the local `block`, enciphered there and copied back.
     */
    static method EncryptBlocks(dataBuf: array<Byte>, kschd: array<Word>, offset: nat, Nb: nat, Nr: nat)
      requires Nb == 4 && BlockLen * offset <= dataBuf.Length && CipherFits(BlockLen + 1, kschd[..], Nr)
      modifies dataBuf
      ensures dataBuf[..] == Encrypted(old(dataBuf[..]), CipherOf(kschd[..], Nr), offset)
    {
      ghost var data := dataBuf[..];
      var block := new Byte[BlockLen + 1](_ => 0);
      var kdx := 0;
      while kdx < offset
        invariant kdx <= offset
        invariant fresh(block) && block[BlockLen] == 0
        invariant dataBuf[..] == Encrypted(data, CipherOf(kschd[..], Nr), kdx)
      {
        EncryptNext(dataBuf, block, kschd, kdx, Nb, Nr, data);
        kdx := kdx + 1;
      }
    }

    /** One pass of the block loop of `uaes_foward_cipher` (uaes.c:137-157), on block `kdx`. */
    static method EncryptNext(dataBuf: array<Byte>, block: array<Byte>, kschd: array<Word>, kdx: nat, Nb: nat, Nr: nat, ghost data: seq<Byte>)
      requires Nb == 4 && BlockLen * kdx + BlockLen <= |data| == dataBuf.Length && CipherFits(BlockLen + 1, kschd[..], Nr)
      requires block.Length == BlockLen + 1 && block[BlockLen] == 0 && block != dataBuf
      requires dataBuf[..] == Encrypted(data, CipherOf(kschd[..], Nr), kdx)
      modifies dataBuf, block
      ensures block[BlockLen] == 0
      ensures dataBuf[..] == Encrypted(data, CipherOf(kschd[..], Nr), kdx + 1)
    {
      ghost var ks := kschd[..];
      LoadBlock(dataBuf, block, kdx, Nb);
      LoadedUnencrypted(data, CipherOf(ks, Nr), kdx);
      ghost var loaded := block[..];
      EncryptBlock(block, kschd, Nb, Nr);
      CipherTail(loaded, ks, Nr);
      StoreBlock(dataBuf, block, kdx, Nb);
      EncryptedNext(data, ks, Nr, kdx, block[..]);
    }

    /** `memcpy(out, uaes_data_buf, data_len)` (uaes.c:219, 261). */
    static method CopyOut(out: array<Byte>, src: array<Byte>, n: nat)
      requires n <= out.Length && n <= src.Length && out != src
      modifies out
      ensures out[..] == src[..n] + old(out[..])[n..]
    {
      forall i | 0 <= i < n {
        out[i] := src[i];
      }
      assert out[..] == src[..n] + old(out[..])[n..];
    }

    /** `memcpy(block, &uaes_data_buf[16*kdx], 4*Nb)` (uaes.c:137). */
    static method LoadBlock(dataBuf: array<Byte>, block: array<Byte>, kdx: nat, Nb: nat)
      requires Nb == 4 && BlockLen * kdx + BlockLen <= dataBuf.Length && block.Length == BlockLen + 1
      requires block != dataBuf && block[BlockLen] == 0
      modifies block
      ensures block[..] == LoadedBlock(dataBuf[..], kdx)
    {
      forall i | 0 <= i < 4 * Nb {
        block[i] := dataBuf[BlockLen * kdx + i];
      }
    }

    /** `memcpy(&uaes_data_buf[16*kdx], block, 4*Nb)` (uaes.c:157). */
    static method StoreBlock(dataBuf: array<Byte>, block: array<Byte>, kdx: nat, Nb: nat)
      requires Nb == 4 && BlockLen * kdx + BlockLen <= dataBuf.Length && block.Length == BlockLen + 1
      requires block != dataBuf
      modifies dataBuf
      ensures dataBuf[..] == WithBlock(old(dataBuf[..]), kdx, block[..])
    {
      forall i | 0 <= i < 4 * Nb {
        dataBuf[BlockLen * kdx + i] := block[i];
      }
    }

    /** `kschd` of `uaes_foward_cipher` (uaes.c:129, 134): a zeroed array of 61 words, then `key_expansion`. */
    static method Expand(keyBuf: array<Byte>, Nk: nat, Nb: nat, Nr: nat) returns (kschd: array<Word>)
      requires keyBuf.Length == MaxKeyLen + 1 && KbrFits(Nk, Nb, Nr)
      ensures fresh(kschd) && kschd[..] == ExpandedKey(keyBuf[..], Nk, Nr)
    {
      kschd := new Word[MaxKschdLen + 1](_ => Word(0, 0, 0, 0));
      assert kschd[..] == ZeroWords(MaxKschdLen + 1);
      KeyExpansion(keyBuf, kschd, Nk, Nb * (Nr + 1));
    }

    /** `uaes_inverse_cipher` (uaes.c:163-167): an empty stub that changes nothing. */
    method InverseCipher(dataLength: nat, Nk: nat, Nb: nat, Nr: nat)
      requires Valid()
      ensures dataBuf[..] == old(dataBuf[..]) && keyBuf[..] == old(keyBuf[..])
    {
    }

    /** The `memset` and `memcpy` calls of uaes.c:212-215: both buffers zeroed, then the strings copied in. */
    method LoadBuffers(input: seq<Byte>, dataLen: nat, key: seq<Byte>, keyLen: nat)
      requires Valid() && dataLen <= |input| && dataLen <= MaxDataLen && keyLen <= |key| && keyLen <= MaxKeyLen
      modifies dataBuf, keyBuf
      ensures dataBuf[..] == Padded(input, dataLen, MaxDataLen + 1)
      ensures keyBuf[..] == Padded(key, keyLen, MaxKeyLen + 1)
    {
      forall i | 0 <= i < dataBuf.Length {
        dataBuf[i] := 0;
      }
      forall i | 0 <= i < dataLen {
        dataBuf[i] := input[i];
      }
      forall i | 0 <= i < keyBuf.Length {
        keyBuf[i] := 0;
      }
      forall i | 0 <= i < keyLen {
        keyBuf[i] := key[i];
      }
      assert dataBuf[..] == Padded(input, dataLen, MaxDataLen + 1);
    }

    /**
     * `uaes_encryption` (uaes.c:184-224). It returns -1 and writes nothing when a
     * pointer is `NULL`, `keyLength` is outside `UAES128 .. UAESRNG`, the input is
     * longer than 64 bytes or the key longer than 32. Otherwise the zero-padded input
     * and key are loaded into the static buffers, the buffer is enciphered, its first
     * `strlen(in)` bytes are copied to `out`, and it returns 0.
     */
    method Encryption(input: Option<seq<Byte>>, out: array<Byte>, key: Option<seq<Byte>>, keyLength: int) returns (err: int)
      requires Valid() && out != dataBuf && out != keyBuf
      requires ArgsValid(input, key, keyLength) ==> Terminated(input.value) && Terminated(key.value)
      requires Accepted(input, key, keyLength) ==> StrLen(input.value) <= out.Length
      modifies dataBuf, keyBuf, out
      ensures err == 0 || err == -1
      ensures err == 0 <==> Accepted(input, key, keyLength)
      ensures err == -1 ==> unchanged(dataBuf) && unchanged(keyBuf) && unchanged(out)
      ensures err == 0 ==>
        var n := StrLen(input.value);
        keyBuf[..] == Padded(key.value, StrLen(key.value), MaxKeyLen + 1) &&
        dataBuf[..] == Encrypted(Padded(input.value, n, MaxDataLen + 1), CipherOf(ExpandedKey(keyBuf[..], KbrOf(keyLength).Nk, KbrOf(keyLength).Nr), KbrOf(keyLength).Nr), FindOffset(n)) &&
        out[..] == dataBuf[..n] + old(out[..])[n..]
    {
      err := -1;
      if input.None? || key.None? || UaesRng < keyLength || Uaes128 > keyLength {
        return;
      }
      var dataLen := StrLen(input.value);
      var keyLen := StrLen(key.value);
      if MaxDataLen < dataLen || MaxKeyLen < keyLen {
        return;
      }
      var Nk, Nb, Nr := SetKbr(keyLength);
      LoadBuffers(input.value, dataLen, key.value, keyLen);
      ForwardCipher(dataLen, Nk, Nb, Nr);
      CopyOut(out, dataBuf, dataLen);
      err := 0;
    }

    /**
     * `uaes_decryption` (uaes.c:226-266): the checks and copies of `uaes_encryption`
     * around the empty `uaes_inverse_cipher`, so on success the first `strlen(in)`
     * bytes of the input reach `out` unchanged.
     */
    method Decryption(input: Option<seq<Byte>>, out: array<Byte>, key: Option<seq<Byte>>, keyLength: int) returns (err: int)
      requires Valid() && out != dataBuf && out != keyBuf
      requires ArgsValid(input, key, keyLength) ==> Terminated(input.value) && Terminated(key.value)
      requires Accepted(input, key, keyLength) ==> StrLen(input.value) <= out.Length
      modifies dataBuf, keyBuf, out
      ensures err == 0 || err == -1
      ensures err == 0 <==> Accepted(input, key, keyLength)
      ensures err == -1 ==> unchanged(dataBuf) && unchanged(keyBuf) && unchanged(out)
      ensures err == 0 ==>
        var n := StrLen(input.value);
        keyBuf[..] == Padded(key.value, StrLen(key.value), MaxKeyLen + 1) &&
        dataBuf[..] == Padded(input.value, n, MaxDataLen + 1) &&
        out[..] == input.value[..n] + old(out[..])[n..]
    {
      err := -1;
      if input.None? || key.None? || UaesRng < keyLength || Uaes128 > keyLength {
        return;
      }
      var dataLen := StrLen(input.value);
      var keyLen := StrLen(key.value);
      if MaxDataLen < dataLen || MaxKeyLen < keyLen {
        return;
      }
      var Nk, Nb, Nr := SetKbr(keyLength);
      LoadBuffers(input.value, dataLen, key.value, keyLen);
      InverseCipher(dataLen, Nk, Nb, Nr);
      CopyOut(out, dataBuf, dataLen);
      err := 0;
    }
  }
}
