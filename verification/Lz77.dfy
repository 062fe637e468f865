/** Overlapping copies out of the bytes already produced. */
module Lz77 {
  import opened Prelude

  /** `length` times the byte `distance` back, each copy seeing the ones before it. */
  function Copied(out: seq<byte>, distance: nat, length: nat): (r: seq<byte>)
    requires 1 <= distance <= |out|
    ensures |r| == |out| + length && out <= r
    decreases length
  {
    if length == 0 then out else Copied(out + [out[|out| - distance]], distance, length - 1)
  }

  /** An overlapping copy repeats the last `distance` bytes periodically. */
  lemma CopiedPeriodic(out: seq<byte>, distance: nat, length: nat, k: nat)
    requires 1 <= distance <= |out| && k < length
    ensures Copied(out, distance, length)[|out| + k] == out[|out| - distance + k % distance]
  {
    CopiedPeriod(out, distance, length, k, k / distance, k % distance);
  }

  lemma {:induction false} CopiedPeriod(out: seq<byte>, distance: nat, length: nat, k: nat, q: nat, phase: nat)
    requires 1 <= distance <= |out| && k < length && k == q * distance + phase && phase < distance
    ensures Copied(out, distance, length)[|out| + k] == out[|out| - distance + phase]
    decreases length
  {
    var next := out + [out[|out| - distance]];
    if phase > 0 {
      CopiedPeriod(next, distance, length - 1, k - 1, q, phase - 1);
    } else if q > 0 {
      assert (q - 1) * distance == q * distance - distance;
      CopiedPeriod(next, distance, length - 1, k - 1, q - 1, distance - 1);
    }
  }

  /** One more byte at the end of a copy. */
  lemma {:induction false} CopiedNext(out: seq<byte>, distance: nat, length: nat)
    requires 1 <= distance <= |out|
    ensures var r := Copied(out, distance, length);
            Copied(out, distance, length + 1) == r + [r[|r| - distance]]
    decreases length
  {
    if length > 0 {
      CopiedNext(out + [out[|out| - distance]], distance, length - 1);
    }
  }
}
