/** The variable-length integers of 7z headers, and the bounded reader that reads them. */
module HeaderNumbers {
  import opened Prelude

  // ---- reading ----

  /** The loop of `read_7z_uint` from one mask on, relative to the bytes already read: each set bit of
      the first byte announces a byte, and what is left of it below the first clear bit comes on top. */
  function ReadFrom(first: byte, mask: nat, s: seq<byte>): (x: Result<(nat, seq<byte>)>)
    ensures x.Ok? ==> |x.value.1| <= |s|
    decreases mask
  {
    if mask == 0 then Ok((0, s))
    else if first / mask % 2 == 0 then Ok((first % mask, s))
    else if s == [] then Err(Format)
    else
      var (v, rest) :- ReadFrom(first, mask / 2, s[1..]);
      Ok((s[0] as int + 0x100 * v, rest))
  }

  function DecodeUint(s: seq<byte>): (x: Result<(nat, seq<byte>)>)
    ensures x.Ok? ==> |x.value.1| < |s|
  {
    if s == [] then Err(Format) else ReadFrom(s[0], 0x80, s[1..])
  }

  // ---- writing ----

  /** 2^(7n): what fits the first byte and `n - 1` more. */
  function Threshold(n: nat): (t: nat)
    ensures t >= 1
  {
    if n == 0 then 1 else 0x80 * Threshold(n - 1)
  }

  /** How many bytes follow the first. */
  function ExtraFrom(v: u64, a: nat): (e: nat)
    requires a <= 8
    ensures a <= e <= 8
    ensures e < 8 ==> v < Threshold(e + 1)
    ensures e > a ==> v >= Threshold(e)
    decreases 8 - a
  {
    hide Threshold;
    if a == 8 || v < Threshold(a + 1) then a else ExtraFrom(v, a + 1)
  }

  /** `push_uint`: a run of ones as long as the number of bytes that follow, a zero, the top bits. */
  function EncodeUint(v: u64): (s: seq<byte>)
    ensures 1 <= |s| <= 9
  {
    hide Pow2, Pow256, ExtraFrom, Threshold, LittleBytes;
    var a := ExtraFrom(v, 0);
    if a == 8 then [0xff] + LittleBytes(v, 8)
    else
      HighBits(v, a);
      [0x100 - Pow2(8 - a) + v / Pow256(a)] + LittleBytes(v, a)
  }

  /** The top bits of a number of `7(a + 1)` bits fit below the run of `a` ones. */
  lemma HighBits(v: nat, a: nat)
    requires a <= 7 && v < Threshold(a + 1)
    ensures 0 <= v / Pow256(a) < Pow2(7 - a) && 0x100 - Pow2(8 - a) + v / Pow256(a) < 0x100
    ensures Pow2(8 - a) == 2 * Pow2(7 - a) <= 0x100
  {
    ThresholdSplit(a);
    QuotientBelow(v, Pow256(a), Pow2(7 - a));
    Pow2Order(8 - a, 8);
    assert Pow2(8) == 0x100;
  }

  lemma {:induction false} ThresholdSplit(a: nat)
    requires a <= 7
    ensures Threshold(a + 1) == Pow2(7 - a) * Pow256(a)
  {
    if a == 0 {
      assert Pow2(7) == 0x80;
    } else {
      ThresholdSplit(a - 1);
      var p, q := Pow2(7 - a), Pow256(a - 1);
      assert Threshold(a + 1) == 0x80 * (2 * p * q);
      assert p * (0x100 * q) == 0x80 * (2 * p * q);
    }
  }

  // ---- the two are inverse ----

  predicate IsMask(mask: nat) {
    mask in {1, 2, 4, 8, 16, 32, 64, 128}
  }

  /** A bit decides how the remainders by the two powers around it differ. */
  lemma MaskBit(first: nat, mask: nat)
    requires mask >= 1
    ensures first / mask % 2 == (if first % (2 * mask) < mask then 0 else 1)
    ensures first % mask == first % (2 * mask) - (if first % (2 * mask) < mask then 0 else mask)
  {
    var q, r := first / (2 * mask), first % (2 * mask);
    assert first == q * (2 * mask) + r;
    var bit_ := if r < mask then 0 else 1;
    Doubled(q, mask, bit_);
    DivModIs(first, mask, 2 * q + bit_, r - bit_ * mask);
  }

  lemma Doubled(q: nat, mask: nat, bit_: nat)
    ensures q * (2 * mask) + bit_ * mask == (2 * q + bit_) * mask
  {
  }

  lemma DivDiv(x: nat, p: nat)
    requires p >= 1
    ensures x / 0x100 / p == x / (0x100 * p)
  {
    var y := x / 0x100;
    var q := y / p;
    assert y == q * p + y % p;
    var r := 0x100 * (y % p) + x % 0x100;
    assert x == 0x100 * (q * p) + r == q * (0x100 * p) + r;
    QuotientIs(x, 0x100 * p, q, r);
  }

  /** After some ones, `n` bytes and the top bits are still to come. */
  lemma {:induction false} ReadsBack(first: byte, mask: nat, final: nat, x: nat, n: nat, top: nat, more: seq<byte>)
    requires IsMask(mask) && final >= 1 && mask == final * Pow2(n)
    requires top == x / Pow256(n) < final && first % (2 * mask) == 2 * mask - 2 * final + top
    ensures ReadFrom(first, mask, LittleBytes(x, n) + more) == Ok((x, more))
    decreases n
  {
    hide Pow2, Pow256, IsMask, ReadFrom;
    ReadUnfolds(first, mask, LittleBytes(x, n) + more);
    Hundreds(x, n);
    if n == 0 {
      NoDoublings(final);
      assert LittleBytes(x, 0) + more == more;
    } else {
      HalfMask(mask, final, n);
      RemainderStep(first, mask, mask / 2, 2 * mask - 2 * final + top);
      FirstDigit(x, n, more);
      hide LittleBytes;
      ReadsBack(first, mask / 2, final, x / 0x100, n - 1, top, more);
    }
  }

  /** One bit of the first byte, told from its remainder. */
  lemma ReadUnfolds(first: byte, mask: nat, s: seq<byte>)
    requires mask >= 1
    ensures first % (2 * mask) < mask ==> ReadFrom(first, mask, s) == Ok((first % (2 * mask), s))
    ensures first % (2 * mask) >= mask && s != [] && ReadFrom(first, mask / 2, s[1..]).Ok? ==>
              var (w, rest) := ReadFrom(first, mask / 2, s[1..]).value;
              ReadFrom(first, mask, s) == Ok((s[0] as int + 0x100 * w, rest))
  {
    MaskBit(first, mask);
  }

  lemma RemainderStep(first: nat, mask: nat, half: nat, r: nat)
    requires half >= 1 && mask == 2 * half && first % (2 * mask) == r >= mask
    ensures first % (2 * half) == r - mask
  {
    MaskBit(first, mask);
  }

  lemma FirstDigit(x: nat, n: nat, more: seq<byte>)
    requires n >= 1
    ensures var s := LittleBytes(x, n) + more;
            s[1..] == LittleBytes(x / 0x100, n - 1) + more && s[0] as int + 0x100 * (x / 0x100) == x
  {
  }

  lemma NoDoublings(final: nat)
    ensures final * Pow2(0) == final
  {
  }

  lemma Hundreds(x: nat, n: nat)
    ensures n == 0 ==> x / Pow256(n) == x
    ensures n > 0 ==> x / Pow256(n) == x / 0x100 / Pow256(n - 1)
  {
    if n > 0 {
      DivDiv(x, Pow256(n - 1));
    }
  }

  lemma HalfMask(mask: nat, final: nat, n: nat)
    requires IsMask(mask) && final >= 1 && n > 0 && mask == final * Pow2(n)
    ensures mask == 2 * (mask / 2) && IsMask(mask / 2) && mask / 2 >= final && mask / 2 == final * Pow2(n - 1)
  {
    var p := Pow2(n - 1);
    assert final * (2 * p) == 2 * (final * p);
    MulAtMost(1, p, final);
  }

  /** With eight ones all eight bytes are the number. */
  lemma {:induction false} ReadsAll(mask: nat, x: nat, n: nat, more: seq<byte>)
    requires (mask == 0 && n == 0) || (IsMask(mask) && n >= 1 && 2 * mask == Pow2(n))
    requires x < Pow256(n)
    ensures ReadFrom(0xff, mask, LittleBytes(x, n) + more) == Ok((x, more))
    decreases n
  {
    if n == 0 {
      assert LittleBytes(x, 0) + more == more;
    } else {
      AllOnes(mask);
      assert (LittleBytes(x, n) + more)[1..] == LittleBytes(x / 0x100, n - 1) + more;
      ReadsAll(mask / 2, x / 0x100, n - 1, more);
    }
  }

  lemma AllOnes(mask: nat)
    requires IsMask(mask)
    ensures 0xff / mask % 2 == 1
  {
  }

  lemma ShortInverse(v: u64, a: nat, first: byte, more: seq<byte>)
    requires a <= 7 && v < Threshold(a + 1) && first == 0x100 - Pow2(8 - a) + v / Pow256(a)
    ensures ReadFrom(first, 0x80, LittleBytes(v, a) + more) == Ok((v, more))
  {
    HighBits(v, a);
    FinalMask(a);
    Pow2Sum(7 - a, a);
    assert Pow2(7) == 0x80;
    hide Pow2, Pow256, Threshold;
    ReadsBack(first, 0x80, Pow2(7 - a), v, a, v / Pow256(a), more);
  }

  lemma LongInverse(v: u64, more: seq<byte>)
    ensures ReadFrom(0xff, 0x80, LittleBytes(v, 8) + more) == Ok((v, more))
  {
    assert Pow2(8) == 0x100;
    EightBytes();
    hide Pow2, Pow256;
    ReadsAll(0x80, v, 8, more);
  }

  /** `read_7z_uint` after `push_uint` gives every number back and stops right after it. */
  lemma UintInverse(v: u64, more: seq<byte>)
    ensures DecodeUint(EncodeUint(v) + more) == Ok((v, more))
  {
    hide Pow2, Pow256, Threshold, ReadFrom, LittleBytes, ExtraFrom;
    var a := ExtraFrom(v, 0);
    var s := EncodeUint(v) + more;
    assert s[1..] == LittleBytes(v, a) + more;
    if a == 8 {
      LongInverse(v, more);
    } else {
      ShortInverse(v, a, s[0], more);
    }
  }

  lemma EightBytes()
    ensures Pow256(8) == 0x1_0000_0000_0000_0000
  {
    assert Pow256(4) == 0x1_0000_0000;
  }

  lemma FinalMask(a: nat)
    requires a <= 7
    ensures IsMask(Pow2(7 - a))
  {
    assert Pow2(0) == 1 && Pow2(1) == 2 && Pow2(2) == 4 && Pow2(3) == 8 && Pow2(4) == 16 && Pow2(5) == 32
        && Pow2(6) == 64 && Pow2(7) == 128;
  }

  // ---- and the encoding is the shortest ----

  /** After `n` more bytes a number is below 2^(7n) times the mask, unless the ones run to the end. */
  predicate Bounded(mask: nat, n: nat, v: nat) {
    Pow2(n) <= 2 * mask && (Pow2(n) <= mask ==> v < mask * Threshold(n))
  }

  /** A number read with `n` bytes after the first is below 2^(7(n + 1)), unless all eight ones are used. */
  lemma {:induction false} ReadBound(first: byte, mask: nat, s: seq<byte>)
    requires IsMask(mask) && ReadFrom(first, mask, s).Ok?
    ensures var (v, rest) := ReadFrom(first, mask, s).value; Bounded(mask, |s| - |rest|, v)
    decreases mask
  {
    MaskHalf(mask);
    hide IsMask, Bounded;
    ReadNext(first, mask, s);
    hide ReadFrom;
    var (v, rest) := ReadFrom(first, mask, s).value;
    if first / mask % 2 == 1 {
      var (w, _) := ReadFrom(first, mask / 2, s[1..]).value;
      if mask > 1 {
        ReadBound(first, mask / 2, s[1..]);
        BoundedStep(mask, |s| - |rest|, s[0], w);
      } else {
        ReadNone(first, s[1..]);
        BoundedEnd(v);
      }
    } else {
      BoundedStart(mask, v);
    }
  }

  lemma BoundedStart(mask: nat, v: nat)
    requires v < mask
    ensures Bounded(mask, 0, v)
  {
  }

  lemma BoundedEnd(v: nat)
    ensures Bounded(1, 1, v)
  {
  }

  lemma BoundedStep(mask: nat, n: nat, b: byte, w: nat)
    requires mask == 2 * (mask / 2) && n >= 1 && Bounded(mask / 2, n - 1, w)
    ensures Bounded(mask, n, b as int + 0x100 * w)
  {
    hide Pow2, Threshold;
    NextThreshold(n);
    if Pow2(n) <= mask {
      Hundredfold(mask, mask / 2, b, w, Threshold(n - 1), Threshold(n));
    }
  }

  /** One bit of the first byte: another byte follows, or the rest of it holds the top bits. */
  lemma ReadNext(first: byte, mask: nat, s: seq<byte>)
    requires mask >= 1 && ReadFrom(first, mask, s).Ok?
    ensures first / mask % 2 == 0 ==>
              ReadFrom(first, mask, s).value.1 == s && ReadFrom(first, mask, s).value.0 < mask
    ensures first / mask % 2 == 1 ==>
              && s != [] && ReadFrom(first, mask / 2, s[1..]).Ok?
              && var (w, rest) := ReadFrom(first, mask / 2, s[1..]).value;
                 ReadFrom(first, mask, s).value == (s[0] as int + 0x100 * w, rest)
  {
    assert first % mask < mask;
  }

  lemma ReadNone(first: byte, s: seq<byte>)
    ensures ReadFrom(first, 0, s) == Ok((0, s))
  {
  }

  lemma MaskHalf(mask: nat)
    requires IsMask(mask)
    ensures mask >= 1 && (mask > 1 ==> IsMask(mask / 2) && mask == 2 * (mask / 2))
  {
  }

  lemma NextThreshold(n: nat)
    ensures n > 0 ==> Pow2(n) == 2 * Pow2(n - 1) && Threshold(n) == 0x80 * Threshold(n - 1)
  {
  }

  lemma Hundredfold(mask: nat, half: nat, b: byte, w: nat, t: nat, next: nat)
    requires mask == 2 * half && next == 0x80 * t && w < half * t
    ensures b as int + 0x100 * w < mask * next
  {
    assert mask * next == 0x100 * (half * t);
  }

  lemma {:induction false} ThresholdOrder(a: nat, b: nat)
    requires a <= b
    ensures Threshold(a) <= Threshold(b)
    decreases b
  {
    if a < b { ThresholdOrder(a, b - 1); }
  }

  lemma EncodedLength(v: u64)
    ensures |EncodeUint(v)| == 1 + ExtraFrom(v, 0)
  {
    hide Pow2, Pow256, ExtraFrom, Threshold, LittleBytes;
  }

  /** No accepted encoding of a number is shorter than the one `push_uint` writes. */
  lemma ShortestUint(s: seq<byte>)
    requires DecodeUint(s).Ok? && DecodeUint(s).value.0 < 0x1_0000_0000_0000_0000
    ensures var (v, rest) := DecodeUint(s).value; |EncodeUint(v)| <= |s| - |rest|
  {
    var (v, rest) := DecodeUint(s).value;
    ReadBound(s[0], 0x80, s[1..]);
    EncodedLength(v);
    hide DecodeUint, ReadFrom, EncodeUint, ExtraFrom, Bounded, Threshold;
    var n := |s[1..]| - |rest|;
    if n < ExtraFrom(v, 0) {
      BoundedBelow(n, v);
      ThresholdOrder(n + 1, ExtraFrom(v, 0));
    }
  }

  lemma BoundedBelow(n: nat, v: nat)
    requires n < 8 && Bounded(0x80, n, v)
    ensures v < Threshold(n + 1)
  {
    Pow2Order(n, 7);
    assert Pow2(7) == 0x80;
    NextThreshold(n + 1);
  }

  /** Every accepted encoding is of a number below 2^64, so the program's `u64` never overflows. */
  lemma {:induction false} ReadFits(first: byte, mask: nat, s: seq<byte>, k: nat)
    requires (mask == 0 && k == 0) || (IsMask(mask) && k >= 1 && 2 * mask == Pow2(k))
    requires ReadFrom(first, mask, s).Ok?
    ensures ReadFrom(first, mask, s).value.0 < Pow256(k)
    decreases k
  {
    if k > 0 {
      if first / mask % 2 == 1 {
        ReadFits(first, mask / 2, s[1..], k - 1);
        var w := ReadFrom(first, mask / 2, s[1..]).value.0;
        MulAtMost(w + 1, Pow256(k - 1), 0x100);
      } else {
        assert first % mask < 0x80;
        Pow256Large(k);
      }
    }
  }

  lemma Pow256Large(k: nat)
    requires k >= 1
    ensures Pow256(k) >= 0x100
  {
  }

  lemma UintFits(s: seq<byte>)
    requires DecodeUint(s).Ok?
    ensures DecodeUint(s).value.0 < 0x1_0000_0000_0000_0000
  {
    assert Pow2(8) == 0x100;
    EightBytes();
    ReadFits(s[0], 0x80, s[1..], 8);
  }

  // ---- the program ----

  lemma MaskPositive(mask: nat, n: nat)
    requires n > 0 && 2 * mask == Pow2(n)
    ensures mask > 0 && mask == Pow2(n - 1)
    ensures n > 1 ==> 2 * (mask / 2) == Pow2(n - 1)
    ensures n == 1 ==> mask / 2 == 0
  {
  }

  lemma ReadStep(x: Result<(nat, seq<byte>)>, first: byte, mask: nat, s: seq<byte>, value: nat, k: nat)
    requires mask > 0 && Follows(x, ReadFrom(first, mask, s), value, Pow256(k))
    ensures first / mask % 2 == 0 ==> x == Ok((value + first % mask * Pow256(k), s))
    ensures first / mask % 2 == 1 && s == [] ==> x.Err?
    ensures first / mask % 2 == 1 && s != [] ==>
              Follows(x, ReadFrom(first, mask / 2, s[1..]), value + s[0] as int * Pow256(k), Pow256(k + 1))
  {
    if first / mask % 2 == 1 && s != [] {
      var y := ReadFrom(first, mask / 2, s[1..]);
      if y.Ok? {
        Weighted(s[0], y.value.0, Pow256(k));
      }
    }
  }

  lemma Weighted(b: nat, v: nat, p: nat)
    ensures p * (b + 0x100 * v) == b * p + 0x100 * p * v
  {
  }

  class BoundedReader {
    const bytes: seq<byte>
    var position: nat

    ghost predicate Valid()
      reads this
    {
      position <= |bytes|
    }

    ghost function Rest(): seq<byte>
      requires Valid()
      reads this
    {
      bytes[position..]
    }

    constructor (bytes: seq<byte>)
      ensures Valid() && this.bytes == bytes && Rest() == bytes
    {
      this.bytes, position := bytes, 0;
    }

    method ReadBytes(length: nat) returns (r: Result<seq<byte>>)
      requires Valid()
      modifies this
      ensures Valid() && (r.Ok? <==> length <= |old(Rest())|)
      ensures r.Ok? ==> r.value == old(Rest())[..length] && Rest() == old(Rest())[length..]
      ensures r.Err? ==> position == old(position)
    {
      var end := position + length;
      if end > |bytes| {
        return Err(Format);
      }
      r := Ok(bytes[position..end]);
      position := end;
    }

    method ReadU8() returns (r: Result<byte>)
      requires Valid()
      modifies this
      ensures Valid() && (r.Ok? <==> old(Rest()) != [])
      ensures r.Ok? ==> r.value == old(Rest())[0] && Rest() == old(Rest())[1..]
    {
      var one :- ReadBytes(1);
      r := Ok(one[0]);
    }

    method ReadU32Le() returns (r: Result<u32>)
      requires Valid()
      modifies this
      ensures Valid() && (r.Ok? <==> 4 <= |old(Rest())|)
      ensures r.Ok? ==> r.value == LittleEndian(old(Rest())[..4]) && Rest() == old(Rest())[4..]
      ensures r.Err? ==> position == old(position)
    {
      var four :- ReadBytes(4);
      LittleBound(four);
      assert Pow256(4) == 0x1_0000_0000;
      r := Ok(LittleEndian(four));
    }

    method ReadUint() returns (r: Result<u64>)
      requires Valid()
      modifies this
      ensures Valid()
      ensures var x := DecodeUint(old(Rest()));
              (r.Ok? <==> x.Ok?) && (r.Ok? ==> x.value == (r.value, Rest()))
    {
      hide ReadFrom, Pow2, Pow256;
      ghost var whole := DecodeUint(Rest());
      WholeFits(Rest());
      MaskStart();
      var first :- ReadU8();
      var mask: nat, value: nat := 0x80, 0;
      for k := 0 to 8
        invariant Valid() && Follows(whole, ReadFrom(first, mask, Rest()), value, Pow256(k))
        invariant if k < 8 then 2 * mask == Pow2(8 - k) else mask == 0
      {
        MaskPositive(mask, 8 - k);
        ReadStep(whole, first, mask, Rest(), value, k);
        if first / mask % 2 == 0 {
          return Ok(value + first % mask * Pow256(k));
        }
        var b :- ReadU8();
        value := value + b as int * Pow256(k);
        mask := mask / 2;
      }
      ReadDone(whole, first, Rest(), value);
      r := Ok(value);
    }
  }

  lemma WholeFits(s: seq<byte>)
    ensures DecodeUint(s).Ok? ==> DecodeUint(s).value.0 < 0x1_0000_0000_0000_0000
  {
    if DecodeUint(s).Ok? {
      UintFits(s);
    }
  }

  lemma MaskStart()
    ensures Pow2(8) == 0x100 && Pow256(0) == 1
  {
  }

  lemma ReadDone(x: Result<(nat, seq<byte>)>, first: byte, s: seq<byte>, value: nat)
    requires Follows(x, ReadFrom(first, 0, s), value, Pow256(8))
    ensures x == Ok((value, s))
  {
  }

  lemma {:induction false} ThresholdPower(n: nat)
    ensures Threshold(n) == Pow2(7 * n)
  {
    if n > 0 {
      ThresholdPower(n - 1);
      Pow2Sum(7, 7 * (n - 1));
      assert Pow2(7) == 0x80;
    }
  }

  /** `push_uint`: the first of eight widths that fits, or nine bytes. */
  method PushUint(value: u64) returns (bytes: seq<byte>)
    ensures bytes == EncodeUint(value)
  {
    hide Pow2, Pow256, Threshold, LittleBytes;
    for additional := 0 to 8
      invariant ExtraFrom(value, 0) == ExtraFrom(value, additional)
    {
      ThresholdPower(additional + 1);
      if value < Pow2(7 * (additional + 1)) {
        HighBits(value, additional);
        NoPrefix();
        var prefix: byte := if additional == 0 then 0 else 0x100 - Pow2(8 - additional);
        return [prefix as int + value / Pow256(additional)] + LittleBytes(value, additional);
      }
    }
    bytes := [0xff] + LittleBytes(value, 8);
  }

  lemma NoPrefix()
    ensures Pow2(8) == 0x100
  {
  }

  /** The outcome `x` is `y` with its number above the `value` already read. */
  ghost predicate Follows(x: Result<(nat, seq<byte>)>, y: Result<(nat, seq<byte>)>, value: nat, weight: nat) {
    (x.Ok? <==> y.Ok?) && (x.Ok? ==> x.value == (value + weight * y.value.0, y.value.1))
  }
}
