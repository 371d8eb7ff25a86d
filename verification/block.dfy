/**
 * The block transforms of ops.c, which overwrite a data block in place.
 *
 * The block is column-major: byte `r + 4*c` is row `r` of column `c`, and `Nb`
 * is the number of columns (32-bit words). Each transform is a method on the
 * array, proved to leave it equal to a function of its old contents; the
 * functions say byte by byte what the transform does, and the lemmas about
 * them give the inverse transforms and the frames.
 */
module Block {
  import opened Bits
  import opened Words
  import opened SBox
  import opened Columns

  // ---------------------------------------------------------------------------
  // sub_block, inv_sub_block

  /** The block after `sub_block`: the first `4*Nb` bytes through the S-box, the rest as they were. */
  function Substituted(s: seq<Byte>, Nb: nat): seq<Byte>
    requires 4 * Nb <= |s|
  {
    seq(|s|, i requires 0 <= i < |s| => if i < 4 * Nb then SubBytes(s[i]) else s[i])
  }

  /** The block after `inv_sub_block`. */
  function InvSubstituted(s: seq<Byte>, Nb: nat): seq<Byte>
    requires 4 * Nb <= |s|
  {
    seq(|s|, i requires 0 <= i < |s| => if i < 4 * Nb then InvSubBytes(s[i]) else s[i])
  }

  /** `inv_sub_block` undoes `sub_block`, and the other way round. */
  lemma SubstitutedRoundTrip(s: seq<Byte>, Nb: nat)
    requires 4 * Nb <= |s|
    ensures InvSubstituted(Substituted(s, Nb), Nb) == s
    ensures Substituted(InvSubstituted(s, Nb), Nb) == s
  {
    forall i | 0 <= i < 4 * Nb {
      SubBytesRoundTrip(s[i]);
    }
  }

  /**
   * Apply `f` to each of the first `n` bytes of `block`, in place, from the first byte
   * on: the loop shared by `sub_block` and `inv_sub_block`.
   */
  method MapBytes(block: array<Byte>, n: nat, f: Byte -> Byte)
    requires n <= block.Length
    modifies block
    ensures forall i :: 0 <= i < n ==> block[i] == f(old(block[i]))
    ensures forall i :: n <= i < block.Length ==> block[i] == old(block[i])
  {
    var idx := 0;
    while idx < n
      invariant idx <= n
      invariant forall i :: 0 <= i < idx ==> block[i] == f(old(block[i]))
      invariant forall i :: idx <= i < block.Length ==> block[i] == old(block[i])
    {
      block[idx] := f(block[idx]);
      idx := idx + 1;
    }
  }

  /** `sub_block` (ops.c:204-211). */
  method SubBlock(block: array<Byte>, Nb: nat)
    requires 4 * Nb <= block.Length
    modifies block
    ensures forall i :: 0 <= i < 4 * Nb ==> block[i] == SubBytes(old(block[i]))
    ensures forall i :: 4 * Nb <= i < block.Length ==> block[i] == old(block[i])
    ensures block[..] == Substituted(old(block[..]), Nb)
  {
    MapBytes(block, 4 * Nb, SubBytes);
  }

  /** `inv_sub_block` (ops.c:218-225). */
  method InvSubBlock(block: array<Byte>, Nb: nat)
    requires 4 * Nb <= block.Length
    modifies block
    ensures forall i :: 0 <= i < 4 * Nb ==> block[i] == InvSubBytes(old(block[i]))
    ensures forall i :: 4 * Nb <= i < block.Length ==> block[i] == old(block[i])
    ensures block[..] == InvSubstituted(old(block[..]), Nb)
  {
    MapBytes(block, 4 * Nb, InvSubBytes);
  }

  // ---------------------------------------------------------------------------
  // shift_rows, inv_shift_rows

  /**
   * What `shift_rows` and `inv_shift_rows` demand of the block: at most four rows
   * (a word holds four bytes, and the word shift by the row number is defined up to
   * 3 bytes) and, when there is a row, the four bytes `block[C]`, `block[C+4]`,
   * `block[C+8]`, `block[C+12]` of every row `C < Nb`.
   */
  predicate RowsFit(len: nat, Nb: nat)
  {
    Nb <= 4 && (Nb == 0 || Nb + 12 <= len)
  }

  /** The row, `i mod 4`, of byte `i` of the 16-byte state. */
  function RowOf(i: nat): nat
    requires i < 16
  {
    if i < 4 then i else if i < 8 then i - 4 else if i < 12 then i - 8 else i - 12
  }

  /** The column, `i / 4`, of byte `i` of the 16-byte state. */
  function ColOf(i: nat): nat
    requires i < 16
  {
    if i < 4 then 0 else if i < 8 then 1 else if i < 12 then 2 else 3
  }

  /** `x mod 4` for `x < 8`. */
  function Mod4(x: nat): nat
    requires x < 8
  {
    if x < 4 then x else x - 4
  }

  /** Byte `r + 4*c` of the state is row `r`, column `c`. */
  lemma Cell(r: nat, c: nat)
    requires r < 4 && c < 4
    ensures r + 4 * c < 16 && RowOf(r + 4 * c) == r && ColOf(r + 4 * c) == c
  {
  }

  /** Byte `i` is one of the `Nb` x `Nb` cells the row shifts rewrite. */
  predicate InGrid(i: nat, Nb: nat)
  {
    i < 16 && RowOf(i) < Nb && ColOf(i) < Nb
  }

  /**
   * The block after `shift_rows`: for row `r < Nb` and column `c < Nb`, byte `r + 4*c`
   * is the old byte of row `r` in column `(c + r) mod 4`; every other byte is unchanged.
   */
  function Shifted(s: seq<Byte>, Nb: nat): (t: seq<Byte>)
    requires RowsFit(|s|, Nb)
    ensures |t| == |s|
  {
    seq(|s|, i requires 0 <= i < |s| =>
      if InGrid(i, Nb) then s[RowOf(i) + 4 * Mod4(ColOf(i) + RowOf(i))] else s[i])
  }

  /**
   * The block after `inv_shift_rows`: byte `r + 4*c` of the grid is the old byte of
   * row `r` in column `(c - r) mod 4`.
   */
  function InvShifted(s: seq<Byte>, Nb: nat): (t: seq<Byte>)
    requires RowsFit(|s|, Nb)
    ensures |t| == |s|
  {
    seq(|s|, i requires 0 <= i < |s| =>
      if InGrid(i, Nb) then s[RowOf(i) + 4 * Mod4(ColOf(i) + 4 - RowOf(i))] else s[i])
  }

  /** Row 0 is not moved by either shift. */
  lemma ShiftedRowZero(s: seq<Byte>, Nb: nat)
    requires RowsFit(|s|, Nb)
    ensures forall c :: 0 <= c < 4 && 4 * c < |s| ==> Shifted(s, Nb)[4 * c] == s[4 * c]
    ensures forall c :: 0 <= c < 4 && 4 * c < |s| ==> InvShifted(s, Nb)[4 * c] == s[4 * c]
  {
    forall c | 0 <= c < 4 && 4 * c < |s|
      ensures Shifted(s, Nb)[4 * c] == s[4 * c] && InvShifted(s, Nb)[4 * c] == s[4 * c]
    {
      Cell(0, c);
    }
  }

  /** Byte `i` of the state is row `RowOf(i)` of column `ColOf(i)`. */
  lemma Decompose(i: nat)
    requires i < 16
    ensures RowOf(i) < 4 && ColOf(i) < 4 && i == RowOf(i) + 4 * ColOf(i)
  {
  }

  /** Cell `(r, c)` of the grid after `shift_rows`. */
  lemma ShiftedCell(s: seq<Byte>, Nb: nat, r: nat, c: nat)
    requires RowsFit(|s|, Nb) && r < Nb && c < Nb
    ensures r + 4 * c < |s| && r + 4 * Mod4(c + r) < |s|
    ensures Shifted(s, Nb)[r + 4 * c] == s[r + 4 * Mod4(c + r)]
  {
    Cell(r, c);
  }

  /** Cell `(r, c)` of the grid after `inv_shift_rows`. */
  lemma InvShiftedCell(s: seq<Byte>, Nb: nat, r: nat, c: nat)
    requires RowsFit(|s|, Nb) && r < Nb && c < Nb
    ensures r + 4 * c < |s| && r + 4 * Mod4(c + 4 - r) < |s|
    ensures InvShifted(s, Nb)[r + 4 * c] == s[r + 4 * Mod4(c + 4 - r)]
  {
    Cell(r, c);
  }

  /** With the four rows of the standard state, `inv_shift_rows` undoes `shift_rows`. */
  lemma ShiftedRoundTrip(s: seq<Byte>)
    requires 16 <= |s|
    ensures InvShifted(Shifted(s, 4), 4) == s
  {
    var t := Shifted(s, 4);
    forall i | 0 <= i < |s|
      ensures InvShifted(t, 4)[i] == s[i]
    {
      if i < 16 {
        Decompose(i);
        var r, c := RowOf(i), ColOf(i);
        InvShiftedCell(t, 4, r, c);
        ShiftedCell(s, 4, r, Mod4(c + 4 - r));
      }
    }
  }

  /** And `shift_rows` undoes `inv_shift_rows`. */
  lemma InvShiftedRoundTrip(s: seq<Byte>)
    requires 16 <= |s|
    ensures Shifted(InvShifted(s, 4), 4) == s
  {
    var t := InvShifted(s, 4);
    forall i | 0 <= i < |s|
      ensures Shifted(t, 4)[i] == s[i]
    {
      if i < 16 {
        Decompose(i);
        var r, c := RowOf(i), ColOf(i);
        ShiftedCell(t, 4, r, c);
        InvShiftedCell(s, 4, r, Mod4(c + r));
      }
    }
  }

  // The loops of shift_rows and inv_shift_rows

  /** The word `(uint32_t)(block[C] | block[C+4] << 8 | block[C+8] << 16 | block[C+12] << 24)`: row `C`. */
  function Row(s: seq<Byte>, C: nat): (w: Word)
    requires C + 12 < |s|
    ensures forall k :: 0 <= k < 4 ==> ByteOf(w, k) == s[C + 4 * k]
  {
    Word(s[C], s[C + 4], s[C + 8], s[C + 12])
  }

  /** Byte `R` of row `C` rotated by `C` bytes comes from column `(R + C) mod 4`, or `(R - C) mod 4` the other way. */
  lemma RowShift(w: Word, C: nat, R: nat)
    requires C < 4 && R < 4
    ensures ByteOf(WordShift(w, C), R) == ByteOf(w, Mod4(R + C))
    ensures ByteOf(InvWordShift(w, C), R) == ByteOf(w, Mod4(R + 4 - C))
  {
  }

  /** The cells a row shift has rewritten before reaching row `C`, column `R`. */
  predicate Before(i: nat, Nb: nat, C: nat, R: nat)
  {
    InGrid(i, Nb) && (RowOf(i) < C || (RowOf(i) == C && ColOf(i) < R))
  }

  /** The block part-way through a row shift from `s` to `t`. */
  function Partial(s: seq<Byte>, t: seq<Byte>, Nb: nat, C: nat, R: nat): (p: seq<Byte>)
    requires |t| == |s|
    ensures |p| == |s|
  {
    seq(|s|, i requires 0 <= i < |s| => if Before(i, Nb, C, R) then t[i] else s[i])
  }

  lemma PartialStep(s: seq<Byte>, t: seq<Byte>, Nb: nat, C: nat, R: nat)
    requires |t| == |s| && C < Nb <= 4 && R < Nb && C + 4 * R < |s|
    ensures Partial(s, t, Nb, C, R)[C + 4 * R := t[C + 4 * R]] == Partial(s, t, Nb, C, R + 1)
  {
    Cell(C, R);
  }

  lemma PartialRow(s: seq<Byte>, t: seq<Byte>, Nb: nat, C: nat)
    requires |t| == |s| && C < Nb <= 4
    ensures Partial(s, t, Nb, C, Nb) == Partial(s, t, Nb, C + 1, 0)
  {
  }

  lemma PartialEnds(s: seq<Byte>, t: seq<Byte>, Nb: nat)
    requires |t| == |s| && Nb <= 4
    requires forall i :: 0 <= i < |s| && !InGrid(i, Nb) ==> t[i] == s[i]
    ensures Partial(s, t, Nb, 0, 0) == s
    ensures Partial(s, t, Nb, Nb, 0) == t
  {
  }

  /** Row `C` is still as it was when the shift reaches it. */
  lemma RowUntouched(s: seq<Byte>, t: seq<Byte>, Nb: nat, C: nat)
    requires |t| == |s| && C + 12 < |s| && C < 4
    ensures Row(Partial(s, t, Nb, C, 0), C) == Row(s, C)
  {
    Cell(C, 0);
    Cell(C, 1);
    Cell(C, 2);
    Cell(C, 3);
  }

  lemma ShiftStep(s: seq<Byte>, Nb: nat, C: nat, R: nat)
    requires RowsFit(|s|, Nb) && C < Nb && R < Nb
    ensures C + 4 * R < |s|
    ensures Partial(s, Shifted(s, Nb), Nb, C, R)[C + 4 * R := ByteOf(WordShift(Row(s, C), C), R)]
         == Partial(s, Shifted(s, Nb), Nb, C, R + 1)
  {
    ShiftedCell(s, Nb, C, R);
    RowShift(Row(s, C), C, R);
    PartialStep(s, Shifted(s, Nb), Nb, C, R);
  }

  lemma InvShiftStep(s: seq<Byte>, Nb: nat, C: nat, R: nat)
    requires RowsFit(|s|, Nb) && C < Nb && R < Nb
    ensures C + 4 * R < |s|
    ensures Partial(s, InvShifted(s, Nb), Nb, C, R)[C + 4 * R := ByteOf(InvWordShift(Row(s, C), C), R)]
         == Partial(s, InvShifted(s, Nb), Nb, C, R + 1)
  {
    InvShiftedCell(s, Nb, C, R);
    RowShift(Row(s, C), C, R);
    PartialStep(s, InvShifted(s, Nb), Nb, C, R);
  }

  /** `shift_rows` (ops.c:232-245): row `C` is packed into a word, rotated by `C` bytes and written back. */
  method ShiftRows(block: array<Byte>, Nb: nat)
    requires RowsFit(block.Length, Nb)
    modifies block
    ensures block[..] == Shifted(old(block[..]), Nb)
  {
    ghost var s := block[..];
    ghost var t := Shifted(s, Nb);
    PartialEnds(s, t, Nb);
    var C := 0;
    while C < Nb
      invariant C <= Nb
      invariant block[..] == Partial(s, t, Nb, C, 0)
    {
      RowUntouched(s, t, Nb, C);
      var tmp := Word(block[C], block[C + 4], block[C + 8], block[C + 12]);
      assert tmp == Row(s, C);
      tmp := WordShift(tmp, C);
      var R := 0;
      while R < Nb
        invariant R <= Nb
        invariant block[..] == Partial(s, t, Nb, C, R)
      {
        ShiftStep(s, Nb, C, R);
        block[C + 4 * R] := ByteOf(tmp, R);
        R := R + 1;
      }
      PartialRow(s, t, Nb, C);
      C := C + 1;
    }
  }

  /** `inv_shift_rows` (ops.c:252-265): as `shift_rows`, rotating the other way. */
  method InvShiftRows(block: array<Byte>, Nb: nat)
    requires RowsFit(block.Length, Nb)
    modifies block
    ensures block[..] == InvShifted(old(block[..]), Nb)
  {
    ghost var s := block[..];
    ghost var t := InvShifted(s, Nb);
    PartialEnds(s, t, Nb);
    var C := 0;
    while C < Nb
      invariant C <= Nb
      invariant block[..] == Partial(s, t, Nb, C, 0)
    {
      RowUntouched(s, t, Nb, C);
      var tmp := Word(block[C], block[C + 4], block[C + 8], block[C + 12]);
      assert tmp == Row(s, C);
      tmp := InvWordShift(tmp, C);
      var R := 0;
      while R < Nb
        invariant R <= Nb
        invariant block[..] == Partial(s, t, Nb, C, R)
      {
        InvShiftStep(s, Nb, C, R);
        block[C + 4 * R] := ByteOf(tmp, R);
        R := R + 1;
      }
      PartialRow(s, t, Nb, C);
      C := C + 1;
    }
  }

  // ---------------------------------------------------------------------------
  // mix_columns, inv_mix_columns

  /** `uAES_MAX_BLOCK_LEN` (ops.c:35): the size of the copy `tmp` of the block. */
  const MaxBlockLen: nat := 16

  /**
   * The block with each of its first `n` columns replaced by its image under `f`,
   * the other bytes unchanged: byte `r + 4*c` is byte `r` of `f` of column `c`.
   */
  function Columnwise(s: seq<Byte>, n: nat, f: Word -> Word): (t: seq<Byte>)
    requires 4 * n <= MaxBlockLen && 4 * n <= |s|
    ensures |t| == |s|
  {
    seq(|s|, i requires 0 <= i < |s| => if i < 4 * n then ColumnByte(s, n, f, i) else s[i])
  }

  /** Byte `i < 4*n` of `Columnwise(s, n, f)`. */
  function ColumnByte(s: seq<Byte>, n: nat, f: Word -> Word, i: nat): Byte
    requires 4 * n <= MaxBlockLen && 4 * n <= |s| && i < 4 * n
  {
    ByteOf(f(Pack(s, 4 * ColOf(i))), RowOf(i))
  }

  /** The block after `mix_columns`. */
  function Mixed(s: seq<Byte>, Nb: nat): (t: seq<Byte>)
    requires 4 * Nb <= MaxBlockLen && 4 * Nb <= |s|
    ensures |t| == |s|
  {
    Columnwise(s, Nb, MixColumn)
  }

  /** The block after `inv_mix_columns`. */
  function InvMixed(s: seq<Byte>, Nb: nat): (t: seq<Byte>)
    requires 4 * Nb <= MaxBlockLen && 4 * Nb <= |s|
    ensures |t| == |s|
  {
    Columnwise(s, Nb, InvMixColumn)
  }

  /** Column `c` of the block after a column-wise transform is `f` of the old column. */
  lemma ColumnwiseColumn(s: seq<Byte>, n: nat, f: Word -> Word, c: nat)
    requires 4 * n <= MaxBlockLen && 4 * n <= |s| && c < n
    ensures Pack(Columnwise(s, n, f), 4 * c) == f(Pack(s, 4 * c))
  {
    var t := Columnwise(s, n, f);
    Cell(0, c);
    Cell(1, c);
    Cell(2, c);
    Cell(3, c);
    assert t[4 * c] == ByteOf(f(Pack(s, 4 * c)), 0);
    assert t[4 * c + 1] == ByteOf(f(Pack(s, 4 * c)), 1);
    assert t[4 * c + 2] == ByteOf(f(Pack(s, 4 * c)), 2);
    assert t[4 * c + 3] == ByteOf(f(Pack(s, 4 * c)), 3);
  }

  /** Column-wise transforms by `f` and then `g` undo each other when `g` undoes `f` on every column. */
  lemma ColumnwiseRoundTrip(s: seq<Byte>, n: nat, f: Word -> Word, g: Word -> Word)
    requires 4 * n <= MaxBlockLen && 4 * n <= |s|
    requires forall w :: g(f(w)) == w
    ensures Columnwise(Columnwise(s, n, f), n, g) == s
  {
    var t := Columnwise(s, n, f);
    forall i | 0 <= i < |s|
      ensures Columnwise(t, n, g)[i] == s[i]
    {
      if i < 4 * n {
        Decompose(i);
        ColumnwiseColumn(s, n, f, ColOf(i));
        assert ByteOf(Pack(s, 4 * ColOf(i)), RowOf(i)) == s[i];
      }
    }
  }

  /** `inv_mix_columns` undoes `mix_columns`. */
  lemma MixedRoundTrip(s: seq<Byte>, Nb: nat)
    requires 4 * Nb <= MaxBlockLen && 4 * Nb <= |s|
    ensures InvMixed(Mixed(s, Nb), Nb) == s
  {
    forall w {
      MixColumnRoundTrip(w);
    }
    ColumnwiseRoundTrip(s, Nb, MixColumn, InvMixColumn);
  }

  /** Transforming column `k` as well extends a column-wise transform of the first `k` columns. */
  lemma ColumnStep(s: seq<Byte>, k: nat, f: Word -> Word)
    requires 4 * k + 4 <= MaxBlockLen && 4 * k + 4 <= |s|
    ensures var w := f(Pack(s, 4 * k));
      Columnwise(s, k, f)[4 * k := w.b0][4 * k + 1 := w.b1][4 * k + 2 := w.b2][4 * k + 3 := w.b3]
        == Columnwise(s, k + 1, f)
  {
    Cell(0, k);
    Cell(1, k);
    Cell(2, k);
    Cell(3, k);
  }

  /**
   * The loop shared by `mix_columns` and `inv_mix_columns`: copy the first `4*Nb`
   * bytes into the zeroed `tmp`, then write the four bytes of `f` of column `idx` of
   * the copy over column `idx` of the block.
   */
  method MapColumns(block: array<Byte>, Nb: nat, f: Word -> Word)
    requires 4 * Nb <= MaxBlockLen && 4 * Nb <= block.Length
    modifies block
    ensures block[..] == Columnwise(old(block[..]), Nb, f)
  {
    ghost var s := block[..];
    var tmp := new Byte[MaxBlockLen](_ => 0);
    forall i | 0 <= i < 4 * Nb {
      tmp[i] := block[i];
    }
    assert Columnwise(s, 0, f) == s;
    var idx := 0;
    while idx < Nb
      invariant idx <= Nb
      invariant forall i :: 0 <= i < 4 * Nb ==> tmp[i] == s[i]
      invariant block[..] == Columnwise(s, idx, f)
    {
      var col := Word(tmp[4 * idx], tmp[4 * idx + 1], tmp[4 * idx + 2], tmp[4 * idx + 3]);
      assert col == Pack(s, 4 * idx);
      ColumnStep(s, idx, f);
      var out := f(col);
      block[4 * idx] := out.b0;
      block[4 * idx + 1] := out.b1;
      block[4 * idx + 2] := out.b2;
      block[4 * idx + 3] := out.b3;
      idx := idx + 1;
    }
  }

  /** `mix_columns` (ops.c:272-288). */
  method MixColumns(block: array<Byte>, Nb: nat)
    requires 4 * Nb <= MaxBlockLen && 4 * Nb <= block.Length
    modifies block
    ensures block[..] == Mixed(old(block[..]), Nb)
  {
    MapColumns(block, Nb, MixColumn);
  }

  /** `inv_mix_columns` (ops.c:295-311). */
  method InvMixColumns(block: array<Byte>, Nb: nat)
    requires 4 * Nb <= MaxBlockLen && 4 * Nb <= block.Length
    modifies block
    ensures block[..] == InvMixed(old(block[..]), Nb)
  {
    MapColumns(block, Nb, InvMixColumn);
  }

  // ---------------------------------------------------------------------------
  // add_round_key

  /**
   * The schedule word XORed into column `C` in round `round`: `keyidx` is a
   * `uint8_t`, set to `round * Nb` and incremented once per column, so both the
   * product and the increments wrap around at 256.
   */
  function KeyIndex(round: nat, Nb: nat, C: nat): Byte
  {
    Wrap8(Wrap8(round * Nb) + C)
  }

  /** Without wrap-around the word of column `C` is `round * Nb + C`. */
  lemma KeyIndexNoWrap(round: nat, Nb: nat, C: nat)
    requires C < Nb && round * Nb + Nb <= 0x100
    ensures KeyIndex(round, Nb, C) == round * Nb + C
  {
  }

  /** What `add_round_key` demands: at most four rows and columns inside the block, and every word it reads inside the schedule. */
  predicate RoundKeyFits(len: nat, ks: seq<Word>, round: nat, Nb: nat)
  {
    Nb <= 4 && 4 * Nb <= len && forall C :: 0 <= C < Nb ==> KeyIndex(round, Nb, C) < |ks|
  }

  /**
   * The block after `add_round_key`: byte `R` of column `C`, for `R, C < Nb`, is XORed
   * with byte `R` of schedule word `KeyIndex(round, Nb, C)`; the rest is unchanged.
   */
  function WithRoundKey(s: seq<Byte>, ks: seq<Word>, round: nat, Nb: nat): (t: seq<Byte>)
    requires RoundKeyFits(|s|, ks, round, Nb)
    ensures |t| == |s|
  {
    seq(|s|, i requires 0 <= i < |s| =>
      if InGrid(i, Nb) then Xor(s[i], ByteOf(ks[KeyIndex(round, Nb, ColOf(i))], RowOf(i))) else s[i])
  }

  /** Byte `R` of column `C` after `add_round_key`. */
  lemma WithRoundKeyCell(s: seq<Byte>, ks: seq<Word>, round: nat, Nb: nat, R: nat, C: nat)
    requires RoundKeyFits(|s|, ks, round, Nb) && R < Nb && C < Nb
    ensures 4 * C + R < |s| && KeyIndex(round, Nb, C) < |ks|
    ensures WithRoundKey(s, ks, round, Nb)[4 * C + R] == Xor(s[4 * C + R], ByteOf(ks[KeyIndex(round, Nb, C)], R))
  {
    Cell(R, C);
  }

  /** Adding the same round key twice gives back the block. */
  lemma WithRoundKeyTwice(s: seq<Byte>, ks: seq<Word>, round: nat, Nb: nat)
    requires RoundKeyFits(|s|, ks, round, Nb)
    ensures WithRoundKey(WithRoundKey(s, ks, round, Nb), ks, round, Nb) == s
  {
    var t := WithRoundKey(s, ks, round, Nb);
    forall i | 0 <= i < |s|
      ensures WithRoundKey(t, ks, round, Nb)[i] == s[i]
    {
      if InGrid(i, Nb) {
        XorCancel(s[i], ByteOf(ks[KeyIndex(round, Nb, ColOf(i))], RowOf(i)));
      }
    }
  }

  /** `add_round_key` reads only the `Nb` schedule words of its round. */
  lemma WithRoundKeyReads(s: seq<Byte>, ks: seq<Word>, ks': seq<Word>, round: nat, Nb: nat)
    requires RoundKeyFits(|s|, ks, round, Nb) && RoundKeyFits(|s|, ks', round, Nb)
    requires forall C :: 0 <= C < Nb ==> ks[KeyIndex(round, Nb, C)] == ks'[KeyIndex(round, Nb, C)]
    ensures WithRoundKey(s, ks, round, Nb) == WithRoundKey(s, ks', round, Nb)
  {
    forall i | 0 <= i < |s| && InGrid(i, Nb)
      ensures WithRoundKey(s, ks, round, Nb)[i] == WithRoundKey(s, ks', round, Nb)[i]
    {
      assert ks[KeyIndex(round, Nb, ColOf(i))] == ks'[KeyIndex(round, Nb, ColOf(i))];
    }
  }

  /** The cells `add_round_key` has rewritten before reaching column `C`, row `R`. */
  predicate BeforeColumn(i: nat, Nb: nat, C: nat, R: nat)
  {
    InGrid(i, Nb) && (ColOf(i) < C || (ColOf(i) == C && RowOf(i) < R))
  }

  /** The block part-way through `add_round_key` from `s` to `t`. */
  function PartialColumns(s: seq<Byte>, t: seq<Byte>, Nb: nat, C: nat, R: nat): (p: seq<Byte>)
    requires |t| == |s|
    ensures |p| == |s|
  {
    seq(|s|, i requires 0 <= i < |s| => if BeforeColumn(i, Nb, C, R) then t[i] else s[i])
  }

  lemma PartialColumnsEnds(s: seq<Byte>, t: seq<Byte>, Nb: nat)
    requires |t| == |s| && Nb <= 4
    requires forall i :: 0 <= i < |s| && !InGrid(i, Nb) ==> t[i] == s[i]
    ensures PartialColumns(s, t, Nb, 0, 0) == s
    ensures PartialColumns(s, t, Nb, Nb, 0) == t
  {
  }

  lemma PartialColumnsNext(s: seq<Byte>, t: seq<Byte>, Nb: nat, C: nat)
    requires |t| == |s| && C < Nb <= 4
    ensures PartialColumns(s, t, Nb, C, Nb) == PartialColumns(s, t, Nb, C + 1, 0)
  {
  }

  /** Column `C` is still as it was when `add_round_key` reaches it. */
  lemma ColumnUntouched(s: seq<Byte>, t: seq<Byte>, Nb: nat, C: nat)
    requires |t| == |s| && 4 * C + 4 <= |s| && C < 4
    ensures Pack(PartialColumns(s, t, Nb, C, 0), 4 * C) == Pack(s, 4 * C)
  {
    Cell(0, C);
    Cell(1, C);
    Cell(2, C);
    Cell(3, C);
  }

  lemma PartialColumnsStep(s: seq<Byte>, t: seq<Byte>, Nb: nat, C: nat, R: nat)
    requires |t| == |s| && C < Nb <= 4 && R < Nb && 4 * C + R < |s|
    ensures PartialColumns(s, t, Nb, C, R)[4 * C + R := t[4 * C + R]] == PartialColumns(s, t, Nb, C, R + 1)
  {
    Cell(R, C);
  }

  /** The next column reads the next schedule word, with `uint8_t` wrap-around. */
  lemma KeyIndexNext(round: nat, Nb: nat, C: nat)
    requires C < 4
    ensures KeyIndex(round, Nb, C + 1) == Increment(KeyIndex(round, Nb, C))
  {
  }

  lemma RoundKeyStep(s: seq<Byte>, ks: seq<Word>, round: nat, Nb: nat, C: nat, R: nat, w: Word)
    requires RoundKeyFits(|s|, ks, round, Nb) && C < Nb && R < Nb
    requires KeyIndex(round, Nb, C) < |ks| && w == ks[KeyIndex(round, Nb, C)]
    ensures 4 * C + R < |s|
    ensures var t := WithRoundKey(s, ks, round, Nb);
      PartialColumns(s, t, Nb, C, R)[4 * C + R := ByteOf(XorWord(Pack(s, 4 * C), w), R)]
        == PartialColumns(s, t, Nb, C, R + 1)
  {
    WithRoundKeyCell(s, ks, round, Nb, R, C);
    PartialColumnsStep(s, WithRoundKey(s, ks, round, Nb), Nb, C, R);
  }

  /** `add_round_key` (ops.c:364-379). */
  method AddRoundKey(block: array<Byte>, keysched: array<Word>, round: nat, Nb: nat)
    requires RoundKeyFits(block.Length, keysched[..], round, Nb)
    modifies block
    ensures block[..] == WithRoundKey(old(block[..]), keysched[..], round, Nb)
  {
    ghost var s := block[..];
    ghost var t := WithRoundKey(s, keysched[..], round, Nb);
    PartialColumnsEnds(s, t, Nb);
    var keyidx: Byte := Wrap8(round * Nb);
    var C := 0;
    while C < Nb
      invariant C <= Nb
      invariant keyidx == KeyIndex(round, Nb, C)
      invariant block[..] == PartialColumns(s, t, Nb, C, 0)
    {
      ColumnUntouched(s, t, Nb, C);
      var tmp := Word(block[4 * C], block[4 * C + 1], block[4 * C + 2], block[4 * C + 3]);
      assert tmp == Pack(s, 4 * C);
      ghost var w := keysched[keyidx];
      tmp := XorWord(tmp, keysched[keyidx]);
      var R := 0;
      while R < Nb
        invariant R <= Nb
        invariant block[..] == PartialColumns(s, t, Nb, C, R)
      {
        RoundKeyStep(s, keysched[..], round, Nb, C, R, w);
        block[4 * C + R] := ByteOf(tmp, R);
        R := R + 1;
      }
      PartialColumnsNext(s, t, Nb, C);
      KeyIndexNext(round, Nb, C);
      keyidx := Increment(keyidx);
      C := C + 1;
    }
  }
}
