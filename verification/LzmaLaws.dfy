/** What the shared pieces of the LZMA model mean: which literals learn together, and what they are compared with. */
module LzmaLaws {
  import opened Prelude
  import opened Lz77
  import opened LzmaRange
  import opened LzmaSymbols
  import opened LzmaOperations
  import opened LzmaStream

  /** Literals share their probabilities if and only if their positions agree in the low `lp` bits and the bytes before
      them in the high `lc` bits. */
  lemma LiteralsLearnTogether(lc: nat, lp: nat, position: nat, previous: byte, position': nat, previous': byte)
    requires lc + lp <= 4
    ensures LiteralBase(lc, lp, position, previous) == LiteralBase(lc, lp, position', previous') <==>
              && position % Pow2(lp) == position' % Pow2(lp)
              && previous / Pow2(8 - lc) == previous' / Pow2(8 - lc)
  {
    var p := Pow2(lc);
    Pow2Sum(lc, 8 - lc);
    assert Pow2(8) == 0x100;
    QuotientBelow(previous, Pow2(8 - lc), p);
    QuotientBelow(previous', Pow2(8 - lc), p);
    hide Pow2;
    TwoDigits(position % Pow2(lp), previous / Pow2(8 - lc), position' % Pow2(lp), previous' / Pow2(8 - lc), p);
  }

  lemma TwoDigits(a: nat, b: nat, a': nat, b': nat, p: nat)
    requires b < p && b' < p
    ensures a * p + b == a' * p + b' <==> a == a' && b == b'
  {
    DivModIs(a * p + b, p, a, b);
    DivModIs(a' * p + b', p, a', b');
  }

  /** Inside a block, bits of a plain literal, and those read beside a clear or a set bit of the byte compared with,
      never share a probability, and neither do different places in the byte. */
  lemma BitsLearnApart(matched: nat, symbol: nat, matched': nat, symbol': nat)
    requires symbol < 0x100 && symbol' < 0x100
    ensures MatchedIndex(matched, symbol) == MatchedIndex(matched', symbol') <==>
              matched / 0x80 % 2 == matched' / 0x80 % 2 && symbol == symbol'
    ensures 0x100 <= MatchedIndex(matched, symbol) < 0x300
  {
  }

  /** A literal behind a copy is compared with the byte that one more byte of the copy would have given. */
  lemma ComparedWithNext(out: seq<byte>, offset: nat)
    requires offset < |out|
    ensures |Copied(out, offset + 1, 1)| == |out| + 1
    ensures MatchByte(out, offset) == Copied(out, offset + 1, 1)[|out|]
  {
    assert Copied(out, offset + 1, 1) == out + [out[|out| - (offset + 1)]];
  }

  /** The byte before a literal, and the position, are those of the output so far. */
  lemma SeenOfOutput(m: Model, out: seq<byte>, b: byte)
    requires m.pb <= 4
    ensures Previous(out + [b]) == b && Previous([]) == 0
    ensures PositionState(m, out) == |out| % Pow2(m.pb)
  {
  }

  /** The repeated distance comes to the front; the others keep their order. */
  lemma Remembered(reps: seq<u32>, k: nat)
    requires |reps| == 4 && k < 4
    ensures ToFront(reps, k) ==
            match k
            case 0 => [reps[0], reps[1], reps[2], reps[3]]
            case 1 => [reps[1], reps[0], reps[2], reps[3]]
            case 2 => [reps[2], reps[0], reps[1], reps[3]]
            case _ => [reps[3], reps[0], reps[1], reps[2]]
  {
    var r := [reps[k]] + reps[..k] + reps[k + 1..];
    assert |r| == 4;
  }

  /** A probability starts at one half and moves a thirty-second of the way to the bit that was seen, rounded toward
      where it was. */
  lemma MovesThirtySecond(p: Prob, b: bit)
    ensures PROB_INITIAL == 2048 / 2
    ensures var q := Adapt(p, b);
            if b == 0 then 32 * (q - p) <= 2048 - p < 32 * (q - p) + 32 else 32 * (p - q) <= p < 32 * (p - q) + 32
  {
  }

  /** A range is split where the probability out of 2048 says, in whole parts. */
  lemma SplitsInParts(range: nat, p: Prob)
    ensures exists part: nat :: 2048 * part <= range < 2048 * part + 2048 && Bound(range, p) == part * p
  {
    var part: nat := range / 2048;
    assert Bound(range, p) == part * p;
  }

  /** Every copy of 2 to 273 bytes from 1 to 2^32 - 1 back is one new match; the last distance ends the stream. */
  lemma NewMatchMeans(reps: seq<u32>, distance: nat, length: nat)
    requires |reps| == 4 && 1 <= distance < 0x1_0000_0000 && 2 <= length <= 273
    ensures Meaning(reps, New(distance - 1, length - 2)) == Match(distance, length)
    ensures Meaning(reps, New(0xffff_ffff, length - 2)) == End
    ensures forall k: nat | k < 4 && reps[k] == distance - 1 ::
              Meaning(reps, Again(k, length - 2)) == Match(distance, length)
    ensures reps[0] == distance - 1 ==> Meaning(reps, Short) == Match(distance, 1)
  {
  }

  /** A stream may copy from anywhere in its output that its dictionary reaches; a dictionary has at least one byte. */
  lemma CopiesReach(reps: seq<u32>, out: seq<byte>, size: u32, maximum: nat, distance: nat, length: nat)
    requires |reps| == 4 && 1 <= distance < 0x1_0000_0000 && 2 <= length <= 273
    ensures Allowed(reps, out, LzmaLimits(LittleBytes(size, 4), maximum), New(distance - 1, length - 2)) <==>
            distance <= |out| && (distance <= size || distance == 1)
  {
    assert Pow256(1) == 0x100 && Pow256(2) == 0x1_0000 && Pow256(3) == 0x100_0000 && Pow256(4) == 0x1_0000_0000;
    LittleOfBytes(size, 4);
    hide LittleEndian, LittleBytes;
  }
}
