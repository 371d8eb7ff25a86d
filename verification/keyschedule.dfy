/**
 * The key schedule of ops.c: the round constants of `rcon` and the word recurrence
 * of `key_expansion`, which fills `keysched[]` from the user key.
 *
 * `rcon` places its constant in bits 24-31 of the word, that is in byte 3 of the
 * little-endian schedule words, and `key_expansion` XORs it there; the model keeps
 * that placement.
 */
module KeySchedule {
  import opened Bits
  import opened Field
  import opened Words
  import opened SBox

  // ---------------------------------------------------------------------------
  // rcon

  /** The top byte of `rcon(val)` (ops.c:147-152): 0x1b for 9, 0x36 for 10, and `1 << (val - 1)` below. */
  function RconByte(val: nat): Byte
    requires 1 <= val <= 10
  {
    if val == 9 then 0x1B else if val == 10 then 0x36 else
      Pow2Grows(val - 1, 7);
      assert Pow2(7) == 0x80;
      Pow2(val - 1)
  }

  /** `rcon(val)` as a word: the constant in byte 3, bytes 0-2 zero. */
  function Rcon(val: nat): (w: Word)
    requires 1 <= val <= 10
    ensures w.b0 == 0 && w.b1 == 0 && w.b2 == 0
  {
    Word(0, 0, 0, RconByte(val))
  }

  /** `rcon(1..10)` puts 01, 02, 04, 08, 10, 20, 40, 80, 1b, 36 in the top byte. */
  lemma RconValues()
    ensures RconByte(1) == 0x01 && RconByte(2) == 0x02 && RconByte(3) == 0x04 && RconByte(4) == 0x08
    ensures RconByte(5) == 0x10 && RconByte(6) == 0x20 && RconByte(7) == 0x40 && RconByte(8) == 0x80
    ensures RconByte(9) == 0x1B && RconByte(10) == 0x36
  {
    assert Pow2(7) == 0x80;
  }

  /** Each round constant is the previous one multiplied by x in GF(2^8), starting from 1. */
  lemma RconIsPowerOfX(val: nat)
    requires 1 <= val < 10
    ensures RconByte(1) == 1
    ensures RconByte(val + 1) == XTime(RconByte(val))
  {
    RconValues();
  }

  /** The C expression of `rcon`: `0x01000000 << (val - 1)`, or 0x1b000000 and 0x36000000. */
  lemma RconBits(val: bv8)
    requires 1 <= val <= 10
    ensures Bits32(Rcon(val as nat)) == if val == 9 then 0x1B000000 else if val == 10 then 0x36000000 else (0x01000000 as bv32) << (val - 1)
  {
    RconValues();
  }

  // ---------------------------------------------------------------------------
  // key_expansion

  /**
   * What `key_expansion` demands: a non-empty key of `4*Nk` bytes, room for the
   * words it writes, and every round constant it asks for inside `rcon`'s range
   * 1..10 (`idx / Nk` for `idx < Ns`).
   */
  predicate ExpansionFits(keyLen: nat, schedLen: nat, Nk: nat, Ns: nat)
  {
    1 <= Nk && 4 * Nk <= keyLen && Nk <= schedLen && Ns <= schedLen && Ns <= 11 * Nk
  }

  /** C `x % n` on `size_t`, as repeated subtraction. */
  function Mod(x: nat, n: nat): nat
    requires 1 <= n
    decreases x
  {
    if x < n then x else Mod(x - n, n)
  }

  /** C `x / n` on `size_t`, as repeated subtraction. */
  function Div(x: nat, n: nat): nat
    requires 1 <= n
    decreases x
  {
    if x < n then 0 else 1 + Div(x - n, n)
  }

  /** `Div` and `Mod` are the quotient and remainder of unsigned division: `x == q*n + r` with `r < n`. */
  lemma {:induction false} DivMod(x: nat, n: nat)
    requires 1 <= n
    ensures x == Div(x, n) * n + Mod(x, n) && Mod(x, n) < n
    decreases x
  {
    if x >= n {
      DivMod(x - n, n);
    }
  }

  /** A value below `m` multiples of `n` has quotient below `m`. */
  lemma {:induction false} DivBelow(x: nat, n: nat, m: nat)
    requires 1 <= n && x < m * n
    ensures Div(x, n) < m
    decreases x
  {
    if x >= n {
      DivBelow(x - n, n, m - 1);
    }
  }

  /** The round constant `key_expansion` asks for lies in 1..10. */
  lemma RconIndex(idx: nat, Nk: nat)
    requires 1 <= Nk <= idx < 11 * Nk
    ensures 1 <= Div(idx, Nk) <= 10
  {
    DivBelow(idx, Nk, 11);
  }

  /**
   * The word XORed into `keysched[idx - Nk]` to give `keysched[idx]`, from
   * `prev == keysched[idx - 1]`: rotated, substituted and XORed with the round
   * constant at the start of each group of `Nk` words, only substituted in the
   * middle of a group when `Nk > 6`, and `prev` itself otherwise. The word
   * substitution is the parameter `sub`; `key_expansion` uses `sub_word`
   * (`SubWord`).
   */
  function Temp(prev: Word, idx: nat, Nk: nat, sub: Word -> Word): Word
    requires 1 <= Nk <= idx < 11 * Nk
  {
    RconIndex(idx, Nk);
    if Mod(idx, Nk) == 0 then XorWord(sub(RotWord(prev)), Rcon(Div(idx, Nk)))
    else if Nk > 6 && Mod(idx, Nk) == 4 then sub(prev)
    else prev
  }

  /**
   * The body of the second loop of `key_expansion` (ops.c:333-348), with the word
   * substitution `sub`, computes `Temp`.
   */
  method ComputeTemp(prev: Word, idx: nat, Nk: nat, sub: Word -> Word) returns (tmp: Word)
    requires 1 <= Nk <= idx < 11 * Nk
    ensures tmp == Temp(prev, idx, Nk, sub)
  {
    tmp := prev;
    RconIndex(idx, Nk);
    if Mod(idx, Nk) == 0 {
      tmp := RotWord(tmp);
      tmp := sub(tmp);
      tmp := XorWord(tmp, Rcon(Div(idx, Nk)));
    } else if Nk > 6 && Mod(idx, Nk) == 4 {
      tmp := sub(tmp);
    }
  }

  /**
   * Word `i` of `ws` is the word the schedule of `key` has there: the key packed
   * four bytes to a word, least significant first, for the first `Nk` words, and
   * afterwards the word `Nk` places back XORed with `Temp` of the word before it.
   */
  predicate WordOk(ws: seq<Word>, key: seq<Byte>, Nk: nat, sub: Word -> Word, i: nat)
    requires 1 <= Nk && 4 * Nk <= |key| && i < |ws| && i < 11 * Nk
  {
    ws[i] == (if i < Nk then Pack(key, 4 * i) else XorWord(ws[i - Nk], Temp(ws[i - 1], i, Nk, sub)))
  }

  /** `ws` holds the first `|ws|` words of the schedule of `key`. */
  predicate IsSchedule(ws: seq<Word>, key: seq<Byte>, Nk: nat, sub: Word -> Word)
    requires 1 <= Nk && 4 * Nk <= |key| && |ws| <= 11 * Nk
  {
    forall i :: 0 <= i < |ws| ==> WordOk(ws, key, Nk, sub, i)
  }

  /** The word of the schedule of `key` that follows the words `ws`. */
  function NextWord(ws: seq<Word>, key: seq<Byte>, Nk: nat, sub: Word -> Word): Word
    requires 1 <= Nk && 4 * Nk <= |key| && |ws| < 11 * Nk
  {
    var i := |ws|;
    if i < Nk then Pack(key, 4 * i)
    else XorWord(ws[i - Nk], Temp(ws[i - 1], i, Nk, sub))
  }

  /** A schedule followed by its next word is a schedule. */
  lemma ScheduleExtend(ws: seq<Word>, key: seq<Byte>, Nk: nat, sub: Word -> Word)
    requires 1 <= Nk && 4 * Nk <= |key| && |ws| < 11 * Nk
    requires IsSchedule(ws, key, Nk, sub)
    ensures IsSchedule(ws + [NextWord(ws, key, Nk, sub)], key, Nk, sub)
  {
    var ws' := ws + [NextWord(ws, key, Nk, sub)];
    forall i | 0 <= i < |ws'|
      ensures WordOk(ws', key, Nk, sub, i)
    {
      if i < |ws| {
        assert WordOk(ws, key, Nk, sub, i);
      }
    }
  }

  /** The first `n` words of the schedule of `key`. */
  function Schedule(key: seq<Byte>, Nk: nat, n: nat, sub: Word -> Word): (ws: seq<Word>)
    requires 1 <= Nk && 4 * Nk <= |key| && n <= 11 * Nk
    ensures |ws| == n && IsSchedule(ws, key, Nk, sub)
  {
    if n == 0 then [] else
      var ws := Schedule(key, Nk, n - 1, sub);
      ScheduleExtend(ws, key, Nk, sub);
      ws + [NextWord(ws, key, Nk, sub)]
  }

  /**
   * The first `Nk` words of a schedule are the key, four bytes to a word, least
   * significant first; every later word is the word `Nk` places back XORed with
   * `Temp` of the word before it.
   */
  lemma ScheduleRecurrence(ws: seq<Word>, key: seq<Byte>, Nk: nat, sub: Word -> Word, i: nat)
    requires 1 <= Nk && 4 * Nk <= |key| && |ws| <= 11 * Nk && i < |ws|
    requires IsSchedule(ws, key, Nk, sub)
    ensures i < Nk ==> ws[i] == Pack(key, 4 * i)
    ensures Nk <= i ==> ws[i] == XorWord(ws[i - Nk], Temp(ws[i - 1], i, Nk, sub))
  {
    assert WordOk(ws, key, Nk, sub, i);
  }

  /** Two schedules from keys that agree on their first `4*Nk` bytes agree up to word `i`. */
  lemma {:induction false} ScheduleAgree(a: seq<Word>, b: seq<Word>, key: seq<Byte>, key': seq<Byte>, Nk: nat, sub: Word -> Word, i: nat)
    requires 1 <= Nk && 4 * Nk <= |key| && 4 * Nk <= |key'| && |a| == |b| <= 11 * Nk && i < |a|
    requires key[..4 * Nk] == key'[..4 * Nk]
    requires IsSchedule(a, key, Nk, sub) && IsSchedule(b, key', Nk, sub)
    ensures forall j :: 0 <= j <= i ==> a[j] == b[j]
  {
    if 0 < i {
      ScheduleAgree(a, b, key, key', Nk, sub, i - 1);
    }
    assert WordOk(a, key, Nk, sub, i) && WordOk(b, key', Nk, sub, i);
    if i < Nk {
      forall j | 4 * i <= j < 4 * i + 4
        ensures key[j] == key'[j]
      {
        assert key[..4 * Nk][j] == key'[..4 * Nk][j];
      }
    }
  }

  /**
   * The schedule is determined by the first `4*Nk` bytes of the key: two schedules
   * of the same length from keys that agree there are equal.
   */
  lemma ScheduleUnique(a: seq<Word>, b: seq<Word>, key: seq<Byte>, key': seq<Byte>, Nk: nat, sub: Word -> Word)
    requires 1 <= Nk && 4 * Nk <= |key| && 4 * Nk <= |key'| && |a| == |b| <= 11 * Nk
    requires key[..4 * Nk] == key'[..4 * Nk]
    requires IsSchedule(a, key, Nk, sub) && IsSchedule(b, key', Nk, sub)
    ensures a == b
  {
    if 0 < |a| {
      ScheduleAgree(a, b, key, key', Nk, sub, |a| - 1);
    }
  }

  /** Keys that agree on their first `4*Nk` bytes have the same schedule. */
  lemma ScheduleKeyPrefix(key: seq<Byte>, key': seq<Byte>, Nk: nat, n: nat, sub: Word -> Word)
    requires 1 <= Nk && 4 * Nk <= |key| && 4 * Nk <= |key'| && n <= 11 * Nk
    requires key[..4 * Nk] == key'[..4 * Nk]
    ensures Schedule(key, Nk, n, sub) == Schedule(key', Nk, n, sub)
  {
    ScheduleUnique(Schedule(key, Nk, n, sub), Schedule(key', Nk, n, sub), key, key', Nk, sub);
  }

  /** The larger of two numbers. */
  function Max(a: nat, b: nat): nat
  {
    if a < b then b else a
  }

  /** `s` with its first `n` words replaced by those of `ws`. */
  function Overwrite(s: seq<Word>, ws: seq<Word>, n: nat): (r: seq<Word>)
    requires n <= |ws| && n <= |s|
    ensures |r| == |s|
  {
    seq(|s|, i requires 0 <= i < |s| => if i < n then ws[i] else s[i])
  }

  /** Writing word `n` of `ws` extends the overwritten part by one. */
  lemma OverwriteStep(s: seq<Word>, ws: seq<Word>, n: nat)
    requires n < |ws| && n < |s|
    ensures Overwrite(s, ws, n)[n := ws[n]] == Overwrite(s, ws, n + 1)
  {
  }

  /**
   * `key_expansion` (ops.c:320-355): the first `max(Nk, Ns)` words of `keysched`
   * become the schedule of the key, and no other word is written.
   */
  method KeyExpansion(key: array<Byte>, keysched: array<Word>, Nk: nat, Ns: nat)
    requires ExpansionFits(key.Length, keysched.Length, Nk, Ns)
    modifies keysched
    ensures keysched[..] == Overwrite(old(keysched[..]), Schedule(key[..], Nk, Max(Nk, Ns), SubWord), Max(Nk, Ns))
  {
    ghost var ws := Schedule(key[..], Nk, Max(Nk, Ns), SubWord);
    ExpandWith(key, keysched, Nk, Ns, SubWord, ws);
  }

  /**
   * `key_expansion` with the word substitution `sub` in place of `sub_word`: it
   * writes the schedule `ws` into the first `max(Nk, Ns)` words of `keysched`.
   */
  method ExpandWith(key: array<Byte>, keysched: array<Word>, Nk: nat, Ns: nat, sub: Word -> Word, ghost ws: seq<Word>)
    requires ExpansionFits(key.Length, keysched.Length, Nk, Ns)
    requires |ws| == Max(Nk, Ns) && IsSchedule(ws, key[..], Nk, sub)
    modifies keysched
    ensures keysched[..] == Overwrite(old(keysched[..]), ws, Max(Nk, Ns))
  {
    ghost var s := keysched[..];
    CopyKey(key, keysched, Nk, Ns, sub, ws);
    assert forall i :: 0 <= i < Nk ==> keysched[..][i] == ws[i];
    ExpandWords(key, keysched, Nk, Ns, sub, ws);
    assert keysched[..] == Overwrite(s, ws, Max(Nk, Ns));
  }

  /** The first loop of `key_expansion` (ops.c:324-328): words `0 .. Nk-1` are the packed key. */
  method CopyKey(key: array<Byte>, keysched: array<Word>, Nk: nat, Ns: nat, sub: Word -> Word, ghost ws: seq<Word>)
    requires ExpansionFits(key.Length, keysched.Length, Nk, Ns)
    requires |ws| == Max(Nk, Ns) && IsSchedule(ws, key[..], Nk, sub)
    modifies keysched
    ensures keysched[..] == Overwrite(old(keysched[..]), ws, Nk)
  {
    ghost var s := keysched[..];
    ghost var k := key[..];
    var idx := 0;
    while idx < Nk
      invariant idx <= Nk
      invariant keysched[..] == Overwrite(s, ws, idx)
    {
      ScheduleRecurrence(ws, k, Nk, sub, idx);
      OverwriteStep(s, ws, idx);
      keysched[idx] := Word(key[4 * idx], key[4 * idx + 1], key[4 * idx + 2], key[4 * idx + 3]);
      idx := idx + 1;
    }
  }

  /**
   * The second loop of `key_expansion` (ops.c:330-352): once the first `Nk` words
   * hold the key, words `Nk .. Ns-1` follow the recurrence.
   */
  method ExpandWords(key: array<Byte>, keysched: array<Word>, Nk: nat, Ns: nat, sub: Word -> Word, ghost ws: seq<Word>)
    requires ExpansionFits(key.Length, keysched.Length, Nk, Ns)
    requires |ws| == Max(Nk, Ns) && IsSchedule(ws, key[..], Nk, sub)
    requires forall i :: 0 <= i < Nk ==> keysched[i] == ws[i]
    modifies keysched
    ensures keysched[..] == Overwrite(old(keysched[..]), ws, Max(Nk, Ns))
  {
    ghost var s := keysched[..];
    ghost var k := key[..];
    assert s == Overwrite(s, ws, Nk);
    var idx := Nk;
    while idx < Ns
      invariant Nk <= idx <= Max(Nk, Ns)
      invariant keysched[..] == Overwrite(s, ws, idx)
    {
      var tmp := ComputeTemp(keysched[idx - 1], idx, Nk, sub);
      ScheduleRecurrence(ws, k, Nk, sub, idx);
      OverwriteStep(s, ws, idx);
      keysched[idx] := XorWord(keysched[idx - Nk], tmp);
      idx := idx + 1;
    }
  }
}
