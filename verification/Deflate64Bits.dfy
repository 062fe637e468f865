/** Deflate64 bits: bytes read from their least significant bit. */
module Deflate64Bits {
  import opened Prelude
  import opened BitStrings

  /** The bits of a byte string, in the order the decoder sees them. */
  function BytesBits(s: seq<byte>): (bits: Bits)
    ensures |bits| == 8 * |s|
  {
    if s == [] then [] else Low(s[0], 8) + BytesBits(s[1..])
  }

  lemma {:induction false} BytesBitsAppend(a: seq<byte>, b: seq<byte>)
    ensures BytesBits(a + b) == BytesBits(a) + BytesBits(b)
  {
    if a == [] {
      assert a + b == b;
    } else {
      assert (a + b)[1..] == a[1..] + b;
      BytesBitsAppend(a[1..], b);
    }
  }

  /** Packing bits into bytes, the inverse of reading them. */
  function PackBytes(bits: Bits): seq<byte>
    requires |bits| % 8 == 0
  {
    if bits == [] then []
    else
      ByteValue(bits[..8]);
      [Value(bits[..8])] + PackBytes(bits[8..])
  }

  lemma ByteValue(bits: Bits)
    requires |bits| == 8
    ensures Value(bits) < 0x100
  {
    assert Pow2(8) == 0x100;
  }

  lemma {:induction false} PackedBits(bits: Bits)
    requires |bits| % 8 == 0
    ensures BytesBits(PackBytes(bits)) == bits
  {
    if bits != [] {
      LowOfValue(bits[..8]);
      PackedBits(bits[8..]);
      var packed := PackBytes(bits);
      assert packed[1..] == PackBytes(bits[8..]);
    }
  }

  // ---- reading ----

  /** `read_bits`: the next `n` bits as a number. */
  function TakeBits(bits: Bits, n: nat): (x: Result<(nat, Bits)>)
    ensures x.Ok? ==> x.value.0 < Pow2(n) && |x.value.1| == |bits| - n
    ensures x.Err? <==> |bits| < n
  {
    if |bits| < n then Err(Format) else Ok((Value(bits[..n]), bits[n..]))
  }

  lemma TakeInverts(v: nat, n: nat, more: Bits)
    requires v < Pow2(n)
    ensures TakeBits(Low(v, n) + more, n) == Ok((v, more))
  {
    ValueOfLow(v, n);
    assert (Low(v, n) + more)[..n] == Low(v, n) && (Low(v, n) + more)[n..] == more;
  }

  /** The same, when the rest is still split between the buffer and the input. */
  lemma TakeLow(v: nat, n: nat, buffered: Bits, input: Bits)
    requires v < Pow2(n)
    ensures TakeBits(Low(v, n) + buffered + input, n) == Ok((v, buffered + input))
  {
    assert Low(v, n) + buffered + input == Low(v, n) + (buffered + input);
    TakeInverts(v, n, buffered + input);
  }

  lemma DivMod(v: nat, p: nat)
    requires p >= 1
    ensures 0 <= v % p < p && v == v % p + v / p * p && v / p >= 0
  {
  }

  /** What was read can be written back: reading loses nothing. */
  lemma TakeExact(bits: Bits, n: nat)
    requires |bits| >= n
    ensures bits == Low(TakeBits(bits, n).value.0, n) + TakeBits(bits, n).value.1
  {
    LowOfValue(bits[..n]);
  }

  /** Bits left once the unread part of the current byte is dropped. */
  function Align(bits: Bits): (rest: Bits)
    ensures |rest| % 8 == 0 && |bits| - |rest| < 8
  {
    bits[|bits| % 8..]
  }

  /** Aligning drops the padding in front of whole bytes. */
  lemma AlignDrops(pad: Bits, rest: Bits)
    requires |pad| < 8 && |rest| % 8 == 0
    ensures Align(pad + rest) == rest
  {
    assert |pad + rest| % 8 == |pad|;
  }

  /** The reader: whole bytes in `input` from `position`, and fewer than eight bits in `buffer`. */
  class BitReader {
    const input: seq<byte>
    var position: nat
    var buffer: u64
    var bufferedBits: nat

    /** Between reads at most seven bits are buffered, so aligning never drops a whole byte. */
    ghost predicate Valid()
      reads this
    {
      position <= |input| && bufferedBits <= 7 && buffer < Pow2(bufferedBits)
    }

    ghost function View(): Bits
      requires position <= |input|
      reads this
    {
      Low(buffer, bufferedBits) + BytesBits(input[position..])
    }

    constructor (input: seq<byte>)
      ensures Valid() && View() == BytesBits(input) && this.input == input
    {
      this.input := input;
      position, buffer, bufferedBits := 0, 0, 0;
      new;
      assert input[position..] == input;
    }

    method ReadByte() returns (r: Result<byte>)
      requires position <= |input|
      modifies `position
      ensures r.Err? ==> position == old(position) == |input|
      ensures r.Ok? ==> position == old(position) + 1 <= |input| && r.value == input[old(position)]
    {
      if position == |input| {
        return Err(Format);
      }
      position := position + 1;
      r := Ok(input[position - 1]);
    }

    /** One byte moves from the input to the top of the buffer, which leaves the bits still to be read as they were. */
    method Refill() returns (r: Result<()>)
      requires position <= |input| && bufferedBits < 24 && buffer < Pow2(bufferedBits)
      modifies this
      ensures position <= |input| && View() == old(View())
      ensures r.Err? ==> |View()| == bufferedBits && bufferedBits == old(bufferedBits)
      ensures r.Ok? ==> bufferedBits == old(bufferedBits) + 8 && buffer < Pow2(bufferedBits)
    {
      hide Pow2, Low, BytesBits;
      var byte_ := ReadByte();
      if byte_.Err? {
        NoBytes(input[position..]);
        return Err(byte_.error);
      }
      assert input[old(position)..] == [byte_.value] + input[position..];
      // The buffer is below 2^bufferedBits, so or-ing the shifted byte in adds it.
      PushByte(buffer, bufferedBits, byte_.value, input[old(position)..], input[position..]);
      buffer := buffer + byte_.value as int * Pow2(bufferedBits);
      bufferedBits := bufferedBits + 8;
      r := Ok(());
    }

    method ReadBits(count: nat) returns (r: Result<nat>)
      requires Valid()
      modifies this
      ensures r.Ok? ==> Valid()
      ensures var x := TakeBits(old(View()), count);
              && (count <= 24 ==> (r.Ok? <==> x.Ok?))
              && (r.Ok? ==> count <= 24 && x.Ok? && r.value == x.value.0 && View() == x.value.1)
    {
      if count > 24 {
        return Err(Format);
      }
      hide Pow2, Low, Value, BytesBits;
      ghost var before := View();
      while bufferedBits < count
        invariant position <= |input| && buffer < Pow2(bufferedBits) && View() == before
        invariant bufferedBits <= Max(7, count + 7)
        decreases count + 8 - bufferedBits
      {
        var byte_ := Refill();
        if byte_.Err? {
          return Err(byte_.error);
        }
      }
      Shifted(buffer, bufferedBits, count, BytesBits(input[position..]));
      var value := buffer % Pow2(count);
      buffer := buffer / Pow2(count);
      bufferedBits := bufferedBits - count;
      r := Ok(value);
    }

    method AlignToByte()
      requires Valid()
      modifies this
      ensures Valid() && View() == Align(old(View()))
    {
      assert |View()| % 8 == bufferedBits;
      buffer, bufferedBits := 0, 0;
    }

    predicate HasTrailingBytes()
      reads this
    {
      position != |input|
    }
  }

  lemma PushByte(buffer: nat, count: nat, b: byte, rest: seq<byte>, tail: seq<byte>)
    requires buffer < Pow2(count) && count < 24 && rest == [b] + tail
    ensures Low(buffer, count) + BytesBits(rest)
         == Low(buffer + b as int * Pow2(count), count + 8) + BytesBits(tail)
    ensures buffer + b as int * Pow2(count) < Pow2(count + 8) <= 0x8000_0000
  {
    var high: nat, p := b, Pow2(count);
    LowSplit(buffer + high * p, count, 8, high, buffer);
    assert rest[1..] == tail;
    MulAtMost(high + 1, 0x100, p);
    assert (high + 1) * p == high * p + p;
    BufferBound(count);
  }

  lemma NoBytes(s: seq<byte>)
    ensures s == [] ==> BytesBits(s) == []
  {
  }

  lemma BufferBound(count: nat)
    requires count < 24
    ensures Pow2(count + 8) == 0x100 * Pow2(count) && Pow2(count) <= 0x80_0000
  {
    assert Pow2(8) == 0x100 && Pow2(16) == 0x1_0000 && Pow2(23) == 0x80_0000;
    Pow2Sum(8, count);
    Pow2Sum(count, 23 - count);
    MulAtMost(1, Pow2(23 - count), Pow2(count));
  }

  /** The low `a` bits of `r + q * 2^a` are those of `r`, and `q` is what is above them. */
  lemma {:induction false} LowSplit(v: nat, a: nat, b: nat, q: nat, r: nat)
    requires r < Pow2(a) && v == r + q * Pow2(a)
    ensures Low(v, a + b) == Low(r, a) + Low(q, b)
  {
    if a > 0 {
      var t := q * Pow2(a - 1);
      DoubleProduct(q, Pow2(a - 1));
      HalveSum(v, r, t);
      LowSplit(v / 2, a - 1, b, q, r / 2);
      assert Low(v, a + b) == [v % 2] + Low(v / 2, a - 1 + b);
    }
  }

  lemma DoubleProduct(q: nat, p: nat)
    ensures q * (2 * p) == 2 * (q * p)
  {
  }

  lemma HalveSum(v: nat, r: nat, t: nat)
    requires v == r + 2 * t
    ensures v % 2 == r % 2 && v / 2 == r / 2 + t
  {
  }

  /** Shifting out the low bits reads them. */
  lemma SplitLow(buffer: nat, count: nat, n: nat, q: nat, r: nat)
    requires buffer < Pow2(count) && n <= count && r < Pow2(n) && buffer == r + q * Pow2(n)
    ensures Low(buffer, count) == Low(r, n) + Low(q, count - n) && Value(Low(r, n)) == r
    ensures q < Pow2(count - n)
  {
    hide Pow2;
    LowSplit(buffer, n, count - n, q, r);
    ValueOfLow(r, n);
    Pow2Sum(count - n, n);
    MulBelow(q, Pow2(count - n), Pow2(n), r);
  }

  /** Masking and shifting the buffer takes bits off the front of what is still to be read. */
  lemma Shifted(buffer: nat, buffered: nat, n: nat, input: Bits)
    requires buffer < Pow2(buffered) && n <= buffered
    ensures 0 <= buffer / Pow2(n) < Pow2(buffered - n) && buffer / Pow2(n) <= buffer
    ensures TakeBits(Low(buffer, buffered) + input, n)
         == Ok((buffer % Pow2(n), Low(buffer / Pow2(n), buffered - n) + input))
  {
    var mask := Pow2(n);
    var q, r := buffer / mask, buffer % mask;
    DivMod(buffer, mask);
    SplitLow(buffer, buffered, n, q, r);
    TakeLow(r, n, Low(q, buffered - n), input);
    MulAtMost(1, mask, q);
  }
}
