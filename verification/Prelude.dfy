/** Machine integers, results and powers shared by every decoder model. */
module Prelude {
  // A value of one of these types is always in range, so assigning the result
  // of an unbounded operation to it makes the verifier prove that the checked
  // operation of the program cannot fail there.
  type byte = x: int | 0 <= x < 0x100
  type u32 = x: int | 0 <= x < 0x1_0000_0000
  type u64 = x: int | 0 <= x < 0x1_0000_0000_0000_0000

  datatype Option<+T> = None | Some(value: T)

  datatype Error =
    | Format
    | LimitExceeded
    | Unsupported
    | Checksum
    | Sink

  /** The program's `Result`; `:-` stands for its `?`. */
  datatype Result<+T> = Ok(value: T) | Err(error: Error) {
    predicate IsFailure() {
      Err?
    }

    function PropagateFailure<U>(): Result<U>
      requires Err?
    {
      Err(error)
    }

    function Extract(): T
      requires Ok?
    {
      value
    }
  }

  type bit = x: int | 0 <= x <= 1

  function Min(a: int, b: int): int {
    if a <= b then a else b
  }

  function Max(a: int, b: int): int {
    if a <= b then b else a
  }

  ghost predicate NoRepeats<T>(s: seq<T>) {
    forall j, k | 0 <= j < k < |s| :: s[j] != s[k]
  }

  /** Different numbers below `n` are at most `n` many. */
  lemma {:induction false} PigeonHole(s: seq<nat>, n: nat)
    requires NoRepeats(s) && forall k | 0 <= k < |s| :: s[k] < n
    ensures |s| <= n
    decreases n
  {
    if s == [] {
      return;
    }
    assert s[0] < n;
    if n - 1 in s {
      var j :| 0 <= j < |s| && s[j] == n - 1;
      var rest := s[..j] + s[j + 1..];
      assert forall k | 0 <= k < |rest| :: rest[k] == s[if k < j then k else k + 1];
      PigeonHole(rest, n - 1);
    } else {
      PigeonHole(s, n - 1);
    }
  }

  function Pow2(n: nat): (p: nat)
    ensures p >= 1
  {
    if n == 0 then 1 else 2 * Pow2(n - 1)
  }

  function Pow256(n: nat): (p: nat)
    ensures p >= 1
  {
    if n == 0 then 1 else 0x100 * Pow256(n - 1)
  }

  /** Big-endian value of a byte string. */
  function BigEndian(s: seq<byte>): nat {
    if s == [] then 0 else s[0] as int * Pow256(|s| - 1) + BigEndian(s[1..])
  }

  lemma MulAtMost(a: nat, b: nat, p: nat)
    requires a <= b
    ensures a * p <= b * p
  {
  }

  /** Comparing multiples of `p`, up to a remainder below `p`. */
  lemma MulBelow(a: nat, b: nat, p: nat, rest: nat)
    requires rest < p
    ensures a * p + rest < b * p <==> a < b
  {
    if a < b {
      MulAtMost(a + 1, b, p);
    } else {
      MulAtMost(b, a, p);
    }
  }

  lemma {:induction false} BigEndianBound(s: seq<byte>)
    ensures BigEndian(s) < Pow256(|s|)
  {
    if s != [] {
      BigEndianBound(s[1..]);
      var head: nat, p := s[0], Pow256(|s| - 1);
      MulAtMost(head + 1, 0x100, p);
      assert (head + 1) * p == head * p + p;
    }
  }

  lemma {:induction false} BigEndianAppend(s: seq<byte>, b: byte)
    ensures BigEndian(s + [b]) == 0x100 * BigEndian(s) + b as int
  {
    if s == [] {
      assert s + [b] == [b];
    } else {
      assert (s + [b])[1..] == s[1..] + [b];
      BigEndianAppend(s[1..], b);
    }
  }

  lemma NextDigit(x: nat, b: nat, p: nat)
    ensures (0x100 * x + b) * p == x * (0x100 * p) + b * p
  {
  }

  lemma {:induction false} BigEndianSplit(s: seq<byte>, k: nat)
    requires k <= |s|
    ensures BigEndian(s) == BigEndian(s[..k]) * Pow256(|s| - k) + BigEndian(s[k..])
    decreases |s| - k
  {
    if k == |s| {
      assert s[..k] == s;
    } else {
      BigEndianSplit(s, k + 1);
      assert s[..k + 1] == s[..k] + [s[k]];
      BigEndianAppend(s[..k], s[k]);
      assert s[k..][1..] == s[k + 1..];
      assert BigEndian(s[k..]) == s[k] as int * Pow256(|s| - k - 1) + BigEndian(s[k + 1..]);
      NextDigit(BigEndian(s[..k]), s[k], Pow256(|s| - k - 1));
    }
  }

  /** The `n` low big-endian bytes of a number. */
  function ToBytes(v: nat, n: nat): (s: seq<byte>)
    ensures |s| == n
  {
    if n == 0 then [] else ToBytes(v / 0x100, n - 1) + [v % 0x100]
  }

  lemma {:induction false} ToBytesValue(v: nat, n: nat)
    requires v < Pow256(n)
    ensures BigEndian(ToBytes(v, n)) == v
  {
    if n > 0 {
      ToBytesValue(v / 0x100, n - 1);
      BigEndianAppend(ToBytes(v / 0x100, n - 1), v % 0x100);
    }
  }

  lemma {:induction false} Pow2Sum(a: nat, b: nat)
    ensures Pow2(a + b) == Pow2(a) * Pow2(b)
  {
    if a > 0 {
      Pow2Sum(a - 1, b);
      assert 2 * (Pow2(a - 1) * Pow2(b)) == (2 * Pow2(a - 1)) * Pow2(b);
    }
  }

  lemma {:induction false} Pow2Order(a: nat, b: nat)
    requires a <= b
    ensures Pow2(a) <= Pow2(b)
    decreases b
  {
    if a < b { Pow2Order(a, b - 1); }
  }

  lemma QuotientHalves(q: nat, p: nat)
    requires p >= 1
    ensures q / p == 2 * (q / (2 * p)) + q / p % 2
  {
    var a, b := q / p, q % p;
    assert q == a * p + b;
    var h := a / 2;
    assert q == h * (2 * p) + (a % 2 * p + b) by {
      assert a == 2 * h + a % 2;
      assert (2 * h + a % 2) * p == h * (2 * p) + a % 2 * p;
    }
    QuotientIs(q, 2 * p, h, a % 2 * p + b);
  }

  lemma QuotientIs(x: nat, d: nat, q: nat, r: nat)
    requires d >= 1 && r < d && x == q * d + r
    ensures x / d == q
  {
    if x / d < q { MulAtMost(x / d + 1, q, d); }
    if q < x / d { MulAtMost(q + 1, x / d, d); }
  }

  /** Little-endian value of a byte string. */
  function LittleEndian(s: seq<byte>): nat {
    if s == [] then 0 else s[0] as int + 0x100 * LittleEndian(s[1..])
  }

  /** The `n` low bytes of a number, the least significant first. */
  function LittleBytes(v: nat, n: nat): (s: seq<byte>)
    ensures |s| == n
  {
    if n == 0 then [] else [v % 0x100] + LittleBytes(v / 0x100, n - 1)
  }

  lemma {:induction false} LittleInverse(s: seq<byte>)
    ensures LittleBytes(LittleEndian(s), |s|) == s
  {
    if s != [] { LittleInverse(s[1..]); }
  }

  lemma {:induction false} LittleOfBytes(v: nat, n: nat)
    requires v < Pow256(n)
    ensures LittleEndian(LittleBytes(v, n)) == v
  {
    if n > 0 {
      LittleOfBytes(v / 0x100, n - 1);
      assert LittleBytes(v, n)[1..] == LittleBytes(v / 0x100, n - 1);
    }
  }

  lemma {:induction false} LittleBound(s: seq<byte>)
    ensures LittleEndian(s) < Pow256(|s|)
  {
    if s != [] { LittleBound(s[1..]); }
  }

  lemma {:induction false} LittleSplit(s: seq<byte>, t: seq<byte>)
    ensures LittleEndian(s + t) == LittleEndian(s) + Pow256(|s|) * LittleEndian(t)
  {
    if s == [] {
      assert s + t == t;
    } else {
      assert (s + t)[1..] == s[1..] + t;
      LittleSplit(s[1..], t);
      assert 0x100 * (Pow256(|s| - 1) * LittleEndian(t)) == Pow256(|s|) * LittleEndian(t);
    }
  }

  lemma QuotientBelow(x: nat, q: nat, p: nat)
    requires q >= 1 && x < p * q
    ensures 0 <= x / q < p
  {
    if x / q >= p { MulAtMost(p, x / q, q); }
  }

  lemma DivModIs(x: nat, d: nat, q: nat, r: nat)
    requires d >= 1 && r < d && x == q * d + r
    ensures x / d == q && x % d == r
  {
    QuotientIs(x, d, q, r);
  }
}
