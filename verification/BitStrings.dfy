/** Bit strings and the numbers they stand for, least significant bit first. */
module BitStrings {
  import opened Prelude

  type Bits = seq<bit>

  /** Value of a bit string whose first bit is the least significant. */
  function Value(bits: Bits): (v: nat)
    ensures v < Pow2(|bits|)
  {
    if bits == [] then 0 else bits[0] + 2 * Value(bits[1..])
  }

  /** The `n` low bits of a number, the least significant first. */
  function Low(v: nat, n: nat): (bits: Bits)
    ensures |bits| == n
  {
    if n == 0 then [] else [v % 2] + Low(v / 2, n - 1)
  }

  lemma {:induction false} ValueOfLow(v: nat, n: nat)
    requires v < Pow2(n)
    ensures Value(Low(v, n)) == v
  {
    if n > 0 {
      ValueOfLow(v / 2, n - 1);
      assert Low(v, n)[1..] == Low(v / 2, n - 1);
    }
  }

  lemma {:induction false} LowOfValue(bits: Bits)
    ensures Low(Value(bits), |bits|) == bits
  {
    if bits != [] {
      LowOfValue(bits[1..]);
    }
  }
}
