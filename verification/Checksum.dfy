/** CRC-32: the table-driven checksum equals the bit-by-bit one, in any chunks. */
module Checksum {
  import opened Prelude
  import opened BitStrings

  // A 32-bit word is its bits, least significant first, so that xor and shifts
  // are what they are bit by bit.

  predicate IsWord(w: Bits) {
    |w| == 32
  }

  function Xor(a: Bits, b: Bits): (c: Bits)
    requires |a| == |b|
    ensures |c| == |a|
  {
    seq(|a|, i requires 0 <= i < |a| => if a[i] == b[i] then 0 else 1)
  }

  function Down(w: Bits, k: nat): (v: Bits)
    ensures |v| == |w|
  {
    seq(|w|, i requires 0 <= i < |w| => if i + k < |w| then w[i + k] else 0)
  }

  /** The reflected CRC-32 polynomial. */
  const POLYNOMIAL: Bits := [
    0, 0, 0, 0, 0, 1, 0, 0, 1, 1, 0, 0, 0, 0, 0, 1, 0, 0, 0, 1, 1, 1, 0, 1, 1, 0, 1, 1, 0, 1, 1, 1]

  /** The value four bits at a time. */
  lemma ValueFour(w: Bits, k: nat)
    requires k + 4 <= |w|
    ensures Value(w[k..]) == w[k] + 2 * w[k + 1] + 4 * w[k + 2] + 8 * w[k + 3] + 16 * Value(w[k + 4..])
  {
    ValueNext(w, k);
    ValueNext(w, k + 1);
    ValueNext(w, k + 2);
    ValueNext(w, k + 3);
  }

  lemma ValueNext(w: Bits, k: nat)
    requires k < |w|
    ensures Value(w[k..]) == w[k] + 2 * Value(w[k + 1..])
  {
    assert w[k..][1..] == w[k + 1..];
  }

  lemma PolynomialValue()
    ensures Value(POLYNOMIAL) == 0xedb8_8320
  {
    hide Value, Pow2, POLYNOMIAL;
    var p := POLYNOMIAL;
    PolynomialBits();
    ValueFour(p, 0);
    ValueFour(p, 4);
    ValueFour(p, 8);
    ValueFour(p, 12);
    ValueFour(p, 16);
    ValueFour(p, 20);
    ValueFour(p, 24);
    ValueFour(p, 28);
    NoBits(p[32..]);
    assert p[0..] == p;
  }

  lemma PolynomialBits()
    ensures var p := POLYNOMIAL;
            && |p| == 32
            && (p[0], p[1], p[2], p[3], p[4], p[5], p[6], p[7]) == (0, 0, 0, 0, 0, 1, 0, 0)
            && (p[8], p[9], p[10], p[11], p[12], p[13], p[14], p[15]) == (1, 1, 0, 0, 0, 0, 0, 1)
            && (p[16], p[17], p[18], p[19], p[20], p[21], p[22], p[23]) == (0, 0, 0, 1, 1, 1, 0, 1)
            && (p[24], p[25], p[26], p[27], p[28], p[29], p[30], p[31]) == (1, 0, 1, 1, 0, 1, 1, 1)
  {
  }

  lemma NoBits(w: Bits)
    ensures w == [] ==> Value(w) == 0
  {
  }

  function Zeros(n: nat): (z: Bits)
    ensures |z| == n && forall i | 0 <= i < n :: z[i] == 0
  {
    seq(n, i => 0)
  }

  /** What a shift takes out of the low end comes back as the polynomial. */
  function Carry(w: Bits): (c: Bits)
    requires IsWord(w)
    ensures IsWord(c)
  {
    if w[0] == 0 then Zeros(32) else POLYNOMIAL
  }

  /** One bit of the division. */
  function Step(w: Bits): (v: Bits)
    requires IsWord(w)
    ensures IsWord(v)
  {
    if w[0] == 0 then Down(w, 1) else Xor(Down(w, 1), POLYNOMIAL)
  }

  function Steps(w: Bits, n: nat): (v: Bits)
    requires IsWord(w)
    ensures IsWord(v)
    decreases n
  {
    if n == 0 then w else Steps(Step(w), n - 1)
  }

  // ---- linearity ----

  lemma StepIs(w: Bits)
    requires IsWord(w)
    ensures Step(w) == Xor(Down(w, 1), Carry(w))
  {
    hide POLYNOMIAL;
  }

  lemma CarryLinear(x: Bits, y: Bits)
    requires IsWord(x) && IsWord(y)
    ensures Carry(Xor(x, y)) == Xor(Carry(x), Carry(y))
  {
    hide POLYNOMIAL;
  }

  lemma DownLinear(x: Bits, y: Bits, k: nat)
    requires |x| == |y|
    ensures Down(Xor(x, y), k) == Xor(Down(x, k), Down(y, k))
  {
  }

  lemma Exchange(a: Bits, b: Bits, c: Bits, d: Bits)
    requires |a| == |b| == |c| == |d|
    ensures Xor(Xor(a, b), Xor(c, d)) == Xor(Xor(a, c), Xor(b, d))
  {
  }

  lemma StepLinear(x: Bits, y: Bits)
    requires IsWord(x) && IsWord(y)
    ensures Step(Xor(x, y)) == Xor(Step(x), Step(y))
  {
    hide Step, Xor, Down, Carry;
    StepIs(x);
    StepIs(y);
    StepIs(Xor(x, y));
    DownLinear(x, y, 1);
    CarryLinear(x, y);
    Exchange(Down(x, 1), Down(y, 1), Carry(x), Carry(y));
  }

  lemma {:induction false} StepsLinear(x: Bits, y: Bits, n: nat)
    requires IsWord(x) && IsWord(y)
    ensures Steps(Xor(x, y), n) == Xor(Steps(x, n), Steps(y, n))
    decreases n
  {
    hide Step, Xor;
    if n > 0 {
      StepLinear(x, y);
      StepsLinear(Step(x), Step(y), n - 1);
    }
  }

  /** Steps over zero bits only shift. */
  lemma {:induction false} ZerosShift(w: Bits, n: nat)
    requires IsWord(w) && n <= 32 && forall i | 0 <= i < n :: w[i] == 0
    ensures Steps(w, n) == Down(w, n)
    decreases n
  {
    if n == 0 {
      assert Down(w, 0) == w;
    } else {
      var v := Down(w, 1);
      assert Step(w) == v;
      ZerosShift(v, n - 1);
      assert Down(v, n - 1) == Down(w, n);
    }
  }

  // ---- the two forms of an update ----

  /** A byte as the low bits of a word. */
  function Wide(b: Bits): (w: Bits)
    requires |b| == 8
    ensures IsWord(w)
  {
    b + Zeros(24)
  }

  function LowByte(w: Bits): (b: Bits)
    requires IsWord(w)
    ensures |b| == 8
  {
    w[..8]
  }

  /** The table entry of a byte. */
  function Entry(index: Bits): (e: Bits)
    requires |index| == 8
    ensures IsWord(e)
  {
    Steps(Wide(index), 8)
  }

  /** The table-driven update of one byte. */
  function TableStep(state: Bits, b: Bits): (next: Bits)
    requires IsWord(state) && |b| == 8
    ensures IsWord(next)
  {
    Xor(Entry(Xor(LowByte(state), b)), Down(state, 8))
  }

  /** The bit-by-bit update of one byte. */
  function BitStep(state: Bits, b: Bits): (next: Bits)
    requires IsWord(state) && |b| == 8
    ensures IsWord(next)
  {
    Steps(Xor(state, Wide(b)), 8)
  }

  /** The upper three bytes, with zero bits below. */
  function High(w: Bits): (h: Bits)
    requires IsWord(w)
    ensures IsWord(h)
  {
    Zeros(8) + w[8..]
  }

  lemma SplitWord(x: Bits)
    requires IsWord(x)
    ensures x == Xor(Wide(LowByte(x)), High(x))
  {
  }

  /** Xoring a byte in changes the low byte only. */
  lemma ByteIn(state: Bits, b: Bits)
    requires IsWord(state) && |b| == 8
    ensures LowByte(Xor(state, Wide(b))) == Xor(LowByte(state), b)
    ensures Down(High(Xor(state, Wide(b))), 8) == Down(state, 8)
  {
  }

  /** Both updates agree for every state and byte. */
  lemma StepsAgree(state: Bits, b: Bits)
    requires IsWord(state) && |b| == 8
    ensures TableStep(state, b) == BitStep(state, b)
  {
    var x := Xor(state, Wide(b));
    ZerosShift(High(x), 8);
    hide Steps, Xor, Down, Wide, High, LowByte;
    SplitWord(x);
    ByteIn(state, b);
    StepsLinear(Wide(LowByte(x)), High(x), 8);
  }

  type Octets = seq<byte>

  /** The bits of a byte. */
  function ByteBits(b: byte): (bits: Bits)
    ensures |bits| == 8
  {
    Low(b, 8)
  }

  function TableUpdate(state: Bits, s: Octets): (next: Bits)
    requires IsWord(state)
    ensures IsWord(next)
    decreases |s|
  {
    if s == [] then state else TableUpdate(TableStep(state, ByteBits(s[0])), s[1..])
  }

  function BitUpdate(state: Bits, s: Octets): (next: Bits)
    requires IsWord(state)
    ensures IsWord(next)
    decreases |s|
  {
    if s == [] then state else BitUpdate(BitStep(state, ByteBits(s[0])), s[1..])
  }

  lemma {:induction false} UpdatesAgree(state: Bits, s: Octets)
    requires IsWord(state)
    ensures TableUpdate(state, s) == BitUpdate(state, s)
    decreases |s|
  {
    hide TableStep, BitStep, ByteBits;
    if s != [] {
      StepsAgree(state, ByteBits(s[0]));
      UpdatesAgree(TableStep(state, ByteBits(s[0])), s[1..]);
    }
  }

  /** Updating chunk by chunk is updating with the whole. */
  lemma {:induction false} UpdateAppend(state: Bits, a: Octets, b: Octets)
    requires IsWord(state)
    ensures TableUpdate(state, a + b) == TableUpdate(TableUpdate(state, a), b)
    decreases |a|
  {
    hide TableStep, ByteBits;
    if a == [] {
      assert a + b == b;
    } else {
      assert (a + b)[0] == a[0] && (a + b)[1..] == a[1..] + b;
      UpdateAppend(TableStep(state, ByteBits(a[0])), a[1..], b);
    }
  }

  function Ones(): (w: Bits)
    ensures IsWord(w)
  {
    seq(32, i => 1)
  }

  /** The CRC of a byte string, bit by bit. */
  function Crc(s: Octets): (crc: Bits) {
    Xor(BitUpdate(Ones(), s), Ones())
  }

  // ---- the program ----

  ghost predicate TableOk(table: seq<Bits>, n: nat)
    requires n <= |table|
  {
    forall i | 0 <= i < n :: table[i] == Entry(Low(i, 8))
  }

  /** The nested loops of `make_crc32_table`. */
  method MakeTable() returns (table: seq<Bits>)
    ensures |table| == 256 && TableOk(table, 256)
  {
    hide Steps, Step, Low, Wide;
    table := seq(256, i => Zeros(32));
    for index := 0 to 256
      invariant |table| == 256 && TableOk(table, index)
    {
      var value := Wide(Low(index, 8));
      for bit_ := 0 to 8
        invariant IsWord(value) && Steps(value, 8 - bit_) == Entry(Low(index, 8))
      {
        StepsNext(value, 8 - bit_);
        value := Step(value);
      }
      StepsNone(value);
      table := table[index := value];
    }
  }

  lemma StepsNext(w: Bits, n: nat)
    requires IsWord(w) && n > 0
    ensures Steps(w, n) == Steps(Step(w), n - 1)
  {
    hide Step;
  }

  lemma StepsNone(w: Bits)
    requires IsWord(w)
    ensures Steps(w, 0) == w
  {
  }

  /** An eight-bit index is below 256, so the "table index is invalid" error cannot occur. */
  lemma IndexBelow(table: seq<Bits>, index: Bits)
    requires |table| == 256 && TableOk(table, 256) && |index| == 8
    ensures Value(index) < 256 && table[Value(index)] == Entry(index)
  {
    hide Entry, Low;
    assert Pow2(8) == 256;
    LowOfValue(index);
  }

  class Crc32 {
    const table: seq<Bits>
    var state: Bits

    ghost predicate Valid()
      reads this
    {
      |table| == 256 && TableOk(table, 256) && IsWord(state)
    }

    constructor ()
      ensures Valid() && state == Ones()
    {
      var t := MakeTable();
      table := t;
      state := Ones();
    }

    method Update(bytes: Octets)
      requires Valid()
      modifies this
      ensures Valid() && state == TableUpdate(old(state), bytes)
    {
      hide Xor, Down, Entry, TableOk, ByteBits, Value;
      for k := 0 to |bytes|
        invariant Valid() && TableUpdate(old(state), bytes) == TableUpdate(state, bytes[k..])
      {
        assert bytes[k..][0] == bytes[k] && bytes[k..][1..] == bytes[k + 1..];
        var index := Xor(LowByte(state), ByteBits(bytes[k]));
        IndexBelow(table, index);
        state := Xor(table[Value(index)], Down(state, 8));
      }
    }

    method Finalize() returns (crc: Bits)
      requires Valid()
      ensures crc == Xor(state, Ones())
    {
      crc := Xor(state, Ones());
    }
  }

  function Concat(chunks: seq<Octets>): Octets {
    if chunks == [] then [] else Concat(chunks[..|chunks| - 1]) + chunks[|chunks| - 1]
  }

  /** A checksum fed any list of chunks is the bitwise CRC of their concatenation. */
  method ChecksumOf(chunks: seq<Octets>) returns (crc: Bits)
    ensures crc == Crc(Concat(chunks))
  {
    hide TableStep, BitStep, Xor, TableOk;
    var c := new Crc32();
    for k := 0 to |chunks|
      invariant c.Valid() && fresh(c)
      invariant c.state == TableUpdate(Ones(), Concat(chunks[..k]))
    {
      assert chunks[..k + 1][..k] == chunks[..k];
      UpdateAppend(Ones(), Concat(chunks[..k]), chunks[k]);
      c.Update(chunks[k]);
    }
    assert chunks[..|chunks|] == chunks;
    UpdatesAgree(Ones(), Concat(chunks));
    crc := c.Finalize();
  }
}
