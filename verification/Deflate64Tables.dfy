/** The Deflate64 length and distance tables. */
module Deflate64Tables {
  import opened Prelude

  const LENGTH_BASE: seq<nat> := [
    3, 4, 5, 6, 7, 8, 9, 10, 11, 13, 15, 17, 19, 23, 27, 31, 35, 43, 51, 59, 67, 83, 99, 115, 131, 163, 195, 227, 3]

  const LENGTH_EXTRA: seq<nat> := [
    0, 0, 0, 0, 0, 0, 0, 0, 1, 1, 1, 1, 2, 2, 2, 2, 3, 3, 3, 3, 4, 4, 4, 4, 5, 5, 5, 5, 16]

  const DISTANCE_BASE: seq<nat> := [
    1, 2, 3, 4, 5, 7, 9, 13, 17, 25, 33, 49, 65, 97, 129, 193, 257, 385, 513, 769, 1025, 1537, 2049, 3073, 4097, 6145,
    8193, 12289, 16385, 24577, 32769, 49153]

  const DISTANCE_EXTRA: seq<nat> := [
    0, 0, 0, 0, 1, 1, 2, 2, 3, 3, 4, 4, 5, 5, 6, 6, 7, 7, 8, 8, 9, 9, 10, 10, 11, 11, 12, 12, 13, 13, 14, 14]

  const HISTORY: nat := 0x1_0000

  lemma TableSizes()
    ensures |LENGTH_BASE| == |LENGTH_EXTRA| == 29
    ensures |DISTANCE_BASE| == |DISTANCE_EXTRA| == 32
    ensures forall i | 0 <= i < 29 :: LENGTH_EXTRA[i] <= 16 && LENGTH_BASE[i] >= 3
    ensures forall i | 0 <= i < 32 :: DISTANCE_EXTRA[i] <= 14 && DISTANCE_BASE[i] >= 1
  {
  }

  function Width(i: nat): nat
    requires i < 32
  {
    Pow2(DISTANCE_EXTRA[i])
  }

  /** Each distance code ends where the next begins. */
  lemma DistanceNext(i: nat)
    requires i < 32
    ensures DISTANCE_BASE[i] + Width(i) == if i < 31 then DISTANCE_BASE[i + 1] else HISTORY + 1
  {
    SmallPowers();
    hide Pow2;
  }

  lemma SmallPowers()
    ensures Pow2(0) == 1 && Pow2(1) == 2 && Pow2(2) == 4 && Pow2(3) == 8 && Pow2(4) == 0x10 && Pow2(5) == 0x20
    ensures Pow2(6) == 0x40 && Pow2(7) == 0x80 && Pow2(8) == 0x100 && Pow2(9) == 0x200 && Pow2(10) == 0x400
    ensures Pow2(11) == 0x800 && Pow2(12) == 0x1000 && Pow2(13) == 0x2000 && Pow2(14) == 0x4000
  {
  }

  lemma {:induction false} DistanceOrder(a: nat, b: nat)
    requires a < b < 32
    ensures DISTANCE_BASE[a] + Width(a) <= DISTANCE_BASE[b]
    decreases b
  {
    hide Pow2;
    if a + 1 < b {
      DistanceOrder(a, b - 1);
    }
    DistanceNext(b - 1);
    TableSizes();
  }

  function SymbolFrom(s: nat, d: nat): (t: nat)
    requires s < 32 && DISTANCE_BASE[s] <= d <= HISTORY
    ensures s <= t < 32 && DISTANCE_BASE[t] <= d < DISTANCE_BASE[t] + Width(t)
    decreases 32 - s
  {
    hide Width;
    DistanceNext(s);
    if s == 31 || d < DISTANCE_BASE[s + 1] then s else SymbolFrom(s + 1, d)
  }

  /** The distance code that covers a distance. */
  function DistanceSymbol(d: nat): (s: nat)
    requires 1 <= d <= HISTORY
    ensures s < 32 && DISTANCE_BASE[s] <= d < DISTANCE_BASE[s] + Width(s)
  {
    SymbolFrom(0, d)
  }

  /** The codes and their extra bits cover 1..65536, each distance exactly once. */
  lemma DistanceUnique(s: nat, extra: nat)
    requires s < 32 && extra < Width(s)
    ensures 1 <= DISTANCE_BASE[s] + extra <= HISTORY && DistanceSymbol(DISTANCE_BASE[s] + extra) == s
  {
    hide Width, SymbolFrom;
    TableSizes();
    DistanceNext(s);
    if s < 31 {
      DistanceOrder(s, 31);
      DistanceNext(31);
    }
    var t := DistanceSymbol(DISTANCE_BASE[s] + extra);
    if s < t {
      DistanceOrder(s, t);
    } else if t < s {
      DistanceOrder(t, s);
    }
  }

  // ---- lengths ----

  function LengthWidth(i: nat): nat
    requires i < 29
  {
    Pow2(LENGTH_EXTRA[i])
  }

  /** Codes 257 to 284 begin at 3, and each ends where the next begins; the last ends behind 258. */
  lemma LengthNext(i: nat)
    requires i < 28
    ensures LENGTH_BASE[0] == 3
    ensures LENGTH_BASE[i] + LengthWidth(i) == if i < 27 then LENGTH_BASE[i + 1] else 259
  {
    SmallPowers();
    hide Pow2;
  }

  /** Code 285 is the one that Deflate64 changes: 3 and sixteen extra bits. */
  lemma LongLength()
    ensures LENGTH_BASE[28] == 3 && LENGTH_EXTRA[28] == 16
  {
  }

  lemma {:induction false} LengthOrder(a: nat, b: nat)
    requires a < b < 28
    ensures LENGTH_BASE[a] + LengthWidth(a) <= LENGTH_BASE[b]
    decreases b
  {
    hide LengthWidth;
    if a + 1 < b {
      LengthOrder(a, b - 1);
    }
    LengthNext(b - 1);
    assert LengthWidth(b - 1) >= 0;
  }

  function LengthFrom(i: nat, length: nat): (t: nat)
    requires i < 28 && LENGTH_BASE[i] <= length <= 258
    ensures i <= t < 28 && LENGTH_BASE[t] <= length < LENGTH_BASE[t] + LengthWidth(t)
    decreases 28 - i
  {
    hide LengthWidth;
    LengthNext(i);
    if i == 27 || length < LENGTH_BASE[i + 1] then i else LengthFrom(i + 1, length)
  }

  /** The code, less 257, that covers a length of up to 258. */
  function LengthCode(length: nat): (i: nat)
    requires 3 <= length <= 258
    ensures i < 28 && LENGTH_BASE[i] <= length < LENGTH_BASE[i] + LengthWidth(i)
  {
    LengthFrom(0, length)
  }

  /** The codes 257 to 284 and their extra bits cover 3..258, each length exactly once. */
  lemma LengthUnique(i: nat, extra: nat)
    requires i < 28 && extra < LengthWidth(i)
    ensures 3 <= LENGTH_BASE[i] + extra <= 258 && LengthCode(LENGTH_BASE[i] + extra) == i
  {
    hide LengthWidth, LengthFrom;
    TableSizes();
    LengthNext(i);
    if i < 27 {
      LengthOrder(i, 27);
      LengthNext(27);
    }
    var t := LengthCode(LENGTH_BASE[i] + extra);
    if i < t {
      LengthOrder(i, t);
    } else if t < i {
      LengthOrder(t, i);
    }
  }

  /** Lengths follow a rule: four codes to a width from the fifth on, the bases of a group stepping by it. */
  lemma LengthRule(i: nat)
    requires i < 28
    ensures if i < 4 then LENGTH_EXTRA[i] == 0 && LENGTH_BASE[i] == 3 + i
            else LENGTH_EXTRA[i] == i / 4 - 1 && LENGTH_BASE[i] == 3 + (4 + i % 4) * Pow2(i / 4 - 1)
  {
    SmallPowers();
    hide Pow2;
    var p := if i < 4 then 1 else Pow2(i / 4 - 1);
    assert (4 + i % 4) * p == 4 * p + i % 4 * p;
  }

  /** Distances too: two codes to a width from the third on. */
  lemma DistanceRule(i: nat)
    requires i < 32
    ensures if i < 2 then DISTANCE_EXTRA[i] == 0 && DISTANCE_BASE[i] == 1 + i
            else DISTANCE_EXTRA[i] == i / 2 - 1 && DISTANCE_BASE[i] == 1 + (2 + i % 2) * Pow2(i / 2 - 1)
  {
    SmallPowers();
    hide Pow2;
    var p := if i < 2 then 1 else Pow2(i / 2 - 1);
    assert (2 + i % 2) * p == 2 * p + i % 2 * p;
  }
}
