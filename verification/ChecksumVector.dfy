/** The check value of CRC-32: the digest of "123456789" is 0xcbf43926. */
module ChecksumVector {
  import opened Prelude
  import opened BitStrings
  import opened Checksum

  // The division is followed on words of eight hexadecimal digits, each of four truth values.

  /** A digit, its lowest bit first. */
  datatype Digit = Digit(a: bool, b: bool, c: bool, d: bool)

  datatype Word = Word(n0: Digit, n1: Digit, n2: Digit, n3: Digit, n4: Digit, n5: Digit, n6: Digit, n7: Digit)

  function Nibble(x: nat): Digit
    requires x < 16
  {
    Digit(x in {1, 3, 5, 7, 9, 11, 13, 15}, x in {2, 3, 6, 7, 10, 11, 14, 15},
          x in {4, 5, 6, 7, 12, 13, 14, 15}, x >= 8)
  }

  /** A word as it is written down, its highest digit first. */
  function Hex(x7: nat, x6: nat, x5: nat, x4: nat, x3: nat, x2: nat, x1: nat, x0: nat): Word
    requires x7 < 16 && x6 < 16 && x5 < 16 && x4 < 16 && x3 < 16 && x2 < 16 && x1 < 16 && x0 < 16
  {
    Word(Nibble(x0), Nibble(x1), Nibble(x2), Nibble(x3), Nibble(x4), Nibble(x5), Nibble(x6), Nibble(x7))
  }

  function DigitAt(w: Word, i: nat): Digit {
    match i
    case 0 => w.n0
    case 1 => w.n1
    case 2 => w.n2
    case 3 => w.n3
    case 4 => w.n4
    case 5 => w.n5
    case 6 => w.n6
    case _ => w.n7
  }

  function BitAt(d: Digit, j: nat): bit {
    if (match j case 0 => d.a case 1 => d.b case 2 => d.c case _ => d.d) then 1 else 0
  }

  /** The bits of a word. */
  function BitsOf(w: Word): (bits: Bits)
    ensures IsWord(bits)
  {
    seq(32, k requires 0 <= k < 32 => BitAt(DigitAt(w, k / 4), k % 4))
  }

  // ---- one bit of the division ----

  function Plus(x: Digit, y: Digit): Digit {
    Digit(x.a != y.a, x.b != y.b, x.c != y.c, x.d != y.d)
  }

  function Sum(v: Word, w: Word): Word {
    Word(Plus(v.n0, w.n0), Plus(v.n1, w.n1), Plus(v.n2, w.n2), Plus(v.n3, w.n3),
         Plus(v.n4, w.n4), Plus(v.n5, w.n5), Plus(v.n6, w.n6), Plus(v.n7, w.n7))
  }

  /** A digit that moves down by one bit, with the lowest bit of the digit above it. */
  function Lower(x: Digit, above: bool): Digit {
    Digit(x.b, x.c, x.d, above)
  }

  function Halved(w: Word): Word {
    Word(Lower(w.n0, w.n1.a), Lower(w.n1, w.n2.a), Lower(w.n2, w.n3.a), Lower(w.n3, w.n4.a),
         Lower(w.n4, w.n5.a), Lower(w.n5, w.n6.a), Lower(w.n6, w.n7.a), Lower(w.n7, false))
  }

  function Generator(): Word {
    Hex(0xe, 0xd, 0xb, 0x8, 0x8, 0x3, 0x2, 0x0)
  }

  function Next(w: Word): Word {
    if w.n0.a then Sum(Halved(w), Generator()) else Halved(w)
  }

  lemma SumBits(v: Word, w: Word)
    ensures Xor(BitsOf(v), BitsOf(w)) == BitsOf(Sum(v, w))
  {
    forall k | 0 <= k < 32
      ensures Xor(BitsOf(v), BitsOf(w))[k] == BitsOf(Sum(v, w))[k]
    {
      SumAt(v, w, k / 4, k % 4);
      hide DigitAt, BitAt, Sum;
    }
  }

  lemma SumAt(v: Word, w: Word, i: nat, j: nat)
    requires i < 8 && j < 4
    ensures BitAt(DigitAt(Sum(v, w), i), j) == if BitAt(DigitAt(v, i), j) == BitAt(DigitAt(w, i), j) then 0 else 1
  {
    SumDigit(v, w, i);
    hide DigitAt, Sum;
  }

  lemma SumDigit(v: Word, w: Word, i: nat)
    requires i < 8
    ensures DigitAt(Sum(v, w), i) == Plus(DigitAt(v, i), DigitAt(w, i))
  {
    hide Plus;
  }

  lemma HalvedBits(w: Word)
    ensures Down(BitsOf(w), 1) == BitsOf(Halved(w))
  {
    forall k | 0 <= k < 32
      ensures Down(BitsOf(w), 1)[k] == BitsOf(Halved(w))[k]
    {
      HalvedAt(w, k / 4, k % 4);
      NextPlace(k);
      hide DigitAt, BitAt, Halved;
    }
  }

  lemma NextPlace(k: nat)
    ensures if k % 4 == 3 then (k + 1) / 4 == k / 4 + 1 && (k + 1) % 4 == 0
            else (k + 1) / 4 == k / 4 && (k + 1) % 4 == k % 4 + 1
  {
  }

  lemma HalvedAt(w: Word, i: nat, j: nat)
    requires i < 8 && j < 4
    ensures BitAt(DigitAt(Halved(w), i), j) ==
            if j < 3 then BitAt(DigitAt(w, i), j + 1) else if i < 7 then BitAt(DigitAt(w, i + 1), 0) else 0
  {
    HalvedDigit(w, i);
    hide DigitAt, Halved;
  }

  lemma HalvedDigit(w: Word, i: nat)
    requires i < 8
    ensures DigitAt(Halved(w), i) == Lower(DigitAt(w, i), i < 7 && DigitAt(w, i + 1).a)
  {
    hide Lower;
  }

  lemma GeneratorBits()
    ensures BitsOf(Generator()) == POLYNOMIAL
  {
    PolynomialBits();
    var p := POLYNOMIAL;
    hide POLYNOMIAL;
    forall k | 0 <= k < 32 ensures BitsOf(Generator())[k] == p[k] {
      GeneratorAt(k / 4, k % 4);
    }
  }

  lemma GeneratorAt(i: nat, j: nat)
    requires i < 8 && j < 4
    ensures |POLYNOMIAL| == 32 && BitAt(DigitAt(Generator(), i), j) == POLYNOMIAL[4 * i + j]
  {
    PolynomialBits();
    hide POLYNOMIAL;
  }

  lemma StepNext(w: Word)
    ensures Step(BitsOf(w)) == BitsOf(Next(w))
  {
    assert BitsOf(w)[0] == if w.n0.a then 1 else 0;
    HalvedBits(w);
    SumBits(Halved(w), Generator());
    GeneratorBits();
    hide BitsOf, Halved, Sum, Generator, Down, Xor, POLYNOMIAL;
  }

  /** Eight bits of it. */
  lemma EightSteps(w: Word)
    ensures Steps(BitsOf(w), 8) == BitsOf(Next(Next(Next(Next(Next(Next(Next(Next(w)))))))))
  {
    hide Step, Next, BitsOf;
    var v := w;
    ghost var left := 8;
    while left > 0
      invariant 0 <= left <= 8 && Steps(BitsOf(w), 8) == Steps(BitsOf(v), left)
      invariant Ahead(v, left) == Ahead(w, 8)
    {
      StepNext(v);
      v, left := Next(v), left - 1;
    }
    AheadEight(w);
  }

  function Ahead(w: Word, n: nat): Word
    decreases n
  {
    if n == 0 then w else Ahead(Next(w), n - 1)
  }

  lemma AheadEight(w: Word)
    ensures Ahead(w, 8) == Next(Next(Next(Next(Next(Next(Next(Next(w))))))))
  {
    hide Next;
    AheadFour(w);
    AheadFour(Next(Next(Next(Next(w)))));
    AheadSum(w, 4, 4);
  }

  lemma AheadFour(w: Word)
    ensures Ahead(w, 4) == Next(Next(Next(Next(w))))
  {
    hide Next;
    assert Ahead(Next(w), 3) == Ahead(Next(Next(w)), 2);
    assert Ahead(Next(Next(w)), 2) == Ahead(Next(Next(Next(w))), 1);
  }

  lemma {:induction false} AheadSum(w: Word, m: nat, n: nat)
    ensures Ahead(w, m + n) == Ahead(Ahead(w, m), n)
    decreases m
  {
    hide Next;
    if m > 0 { AheadSum(Next(w), m - 1, n); }
  }

  /** A byte goes into the two lowest digits. */
  function WithByte(w: Word, high: nat, low: nat): Word
    requires high < 16 && low < 16
  {
    w.(n0 := Plus(w.n0, Nibble(low)), n1 := Plus(w.n1, Nibble(high)))
  }

  lemma {:induction false} LowAt(v: nat, n: nat, k: nat)
    requires k < n
    ensures Low(v, n)[k] == v / Pow2(k) % 2
    decreases n
  {
    if k > 0 {
      LowAt(v / 2, n - 1, k - 1);
      HalfPower(v, k);
    }
  }

  lemma HalfPower(v: nat, k: nat)
    requires k > 0
    ensures v / 2 / Pow2(k - 1) == v / Pow2(k)
  {
    var p := Pow2(k - 1);
    var q, r := v / 2 / p, v / 2 % p;
    assert v / 2 == q * p + r;
    assert v == q * (2 * p) + (2 * r + v % 2) by {
      assert q * (2 * p) == 2 * (q * p);
    }
    QuotientIs(v, 2 * p, q, 2 * r + v % 2);
  }

  lemma NibbleBits(x: nat, j: nat)
    requires x < 16 && j < 4
    ensures BitAt(Nibble(x), j) == x / (if j == 0 then 1 else if j == 1 then 2 else if j == 2 then 4 else 8) % 2
  {
  }

  lemma ByteDigits(high: nat, low: nat, k: nat)
    requires high < 16 && low < 16 && k < 8
    ensures ByteBits(16 * high + low)[k] == BitAt(Nibble(if k < 4 then low else high), k % 4)
  {
    hide Pow2, Nibble, BitAt, Low;
    LowAt(16 * high + low, 8, k);
    SmallPower(k);
    if k < 4 {
      NibbleBits(low, k);
      BottomHalf(high, low);
    } else {
      NibbleBits(high, k - 4);
      TopHalf(high, low, if k == 4 then 1 else if k == 5 then 2 else if k == 6 then 4 else 8);
    }
  }

  lemma SmallPower(k: nat)
    requires k < 8
    ensures Pow2(k) == if k == 0 then 1 else if k == 1 then 2 else if k == 2 then 4 else if k == 3 then 8
                       else if k == 4 then 16 else if k == 5 then 32 else if k == 6 then 64 else 128
  {
    assert Pow2(3) == 8 && Pow2(5) == 32 && Pow2(7) == 128;
  }

  lemma TopHalf(high: nat, low: nat, p: nat)
    requires low < 16 && p in {1, 2, 4, 8}
    ensures (16 * high + low) / (16 * p) == high / p
  {
  }

  lemma BottomHalf(high: nat, low: nat)
    requires low < 16
    ensures (16 * high + low) % 2 == low % 2 && (16 * high + low) / 2 % 2 == low / 2 % 2
    ensures (16 * high + low) / 4 % 2 == low / 4 % 2 && (16 * high + low) / 8 % 2 == low / 8 % 2
  {
    var v := 16 * high + low;
    DivModIs(v, 2, 8 * high + low / 2, low % 2);
    DivModIs(v, 4, 4 * high + low / 4, low % 4);
    DivModIs(v, 8, 2 * high + low / 8, low % 8);
    EvenPart(4 * high, low / 2);
    EvenPart(2 * high, low / 4);
    EvenPart(high, low / 8);
  }

  lemma EvenPart(h: nat, x: nat)
    ensures (2 * h + x) % 2 == x % 2
  {
    DivModIs(2 * h + x, 2, h + x / 2, x % 2);
  }

  /** The exclusive or of two bits of a digit, or a bit of a digit that stays. */
  lemma PlusBit(x: Digit, y: Digit, j: nat)
    requires j < 4
    ensures BitAt(Plus(x, y), j) == if BitAt(x, j) == BitAt(y, j) then 0 else 1
  {
  }

  lemma ByteGoesIn(w: Word, high: nat, low: nat)
    requires high < 16 && low < 16
    ensures Xor(BitsOf(w), Wide(ByteBits(16 * high + low))) == BitsOf(WithByte(w, high, low))
  {
    forall k | 0 <= k < 32
      ensures Xor(BitsOf(w), Wide(ByteBits(16 * high + low)))[k] == BitsOf(WithByte(w, high, low))[k]
    {
      ByteBit(w, high, low, k);
    }
  }

  lemma ByteBit(w: Word, high: nat, low: nat, k: nat)
    requires high < 16 && low < 16 && k < 32
    ensures Xor(BitsOf(w), Wide(ByteBits(16 * high + low)))[k] == BitsOf(WithByte(w, high, low))[k]
  {
    hide Nibble, ByteBits, Plus, BitAt;
    if k < 8 {
      ByteDigits(high, low, k);
      PlusBit(DigitAt(w, k / 4), Nibble(if k < 4 then low else high), k % 4);
    }
  }

  /** One byte of a message. */
  lemma ByteNext(w: Word, s: Octets, high: nat, low: nat)
    requires high < 16 && low < 16 && s != [] && s[0] == 16 * high + low
    ensures BitUpdate(BitsOf(w), s)
         == BitUpdate(BitsOf(Next(Next(Next(Next(Next(Next(Next(Next(WithByte(w, high, low)))))))))), s[1..])
  {
    hide Next, BitsOf, Steps, ByteBits, WithByte;
    ByteGoesIn(w, high, low);
    EightSteps(WithByte(w, high, low));
  }

  // ---- the check ----

  /** The digits '1' to '9'. */
  const CHECK: Octets := [0x31, 0x32, 0x33, 0x34, 0x35, 0x36, 0x37, 0x38, 0x39]

  lemma One(w: Word)
    requires w == WithByte(Hex(0xf, 0xf, 0xf, 0xf, 0xf, 0xf, 0xf, 0xf), 3, 1)
    ensures Next(Next(Next(Next(Next(Next(Next(Next(w)))))))) == Hex(0x7, 0xc, 0x2, 0x3, 0x1, 0x0, 0x4, 0x8)
  {
    assert w == Hex(0xf, 0xf, 0xf, 0xf, 0xf, 0xf, 0xc, 0xe);
    assert Next(w) == Hex(0x7, 0xf, 0xf, 0xf, 0xf, 0xf, 0xe, 0x7);
    assert Next(Hex(0x7, 0xf, 0xf, 0xf, 0xf, 0xf, 0xe, 0x7)) == Hex(0xd, 0x2, 0x4, 0x7, 0x7, 0xc, 0xd, 0x3);
    assert Next(Hex(0xd, 0x2, 0x4, 0x7, 0x7, 0xc, 0xd, 0x3)) == Hex(0x8, 0x4, 0x9, 0xb, 0x3, 0xd, 0x4, 0x9);
    assert Next(Hex(0x8, 0x4, 0x9, 0xb, 0x3, 0xd, 0x4, 0x9)) == Hex(0xa, 0xf, 0xf, 0x5, 0x1, 0xd, 0x8, 0x4);
    assert Next(Hex(0xa, 0xf, 0xf, 0x5, 0x1, 0xd, 0x8, 0x4)) == Hex(0x5, 0x7, 0xf, 0xa, 0x8, 0xe, 0xc, 0x2);
    assert Next(Hex(0x5, 0x7, 0xf, 0xa, 0x8, 0xe, 0xc, 0x2)) == Hex(0x2, 0xb, 0xf, 0xd, 0x4, 0x7, 0x6, 0x1);
    assert Next(Hex(0x2, 0xb, 0xf, 0xd, 0x4, 0x7, 0x6, 0x1)) == Hex(0xf, 0x8, 0x4, 0x6, 0x2, 0x0, 0x9, 0x0);
  }

  lemma Two(w: Word)
    requires w == WithByte(Hex(0x7, 0xc, 0x2, 0x3, 0x1, 0x0, 0x4, 0x8), 3, 2)
    ensures Next(Next(Next(Next(Next(Next(Next(Next(w)))))))) == Hex(0xb, 0x0, 0xa, 0xc, 0xb, 0xb, 0x3, 0x2)
  {
    assert w == Hex(0x7, 0xc, 0x2, 0x3, 0x1, 0x0, 0x7, 0xa);
    assert Next(w) == Hex(0x3, 0xe, 0x1, 0x1, 0x8, 0x8, 0x3, 0xd);
    assert Next(Hex(0x3, 0xe, 0x1, 0x1, 0x8, 0x8, 0x3, 0xd)) == Hex(0xf, 0x2, 0xb, 0x0, 0x4, 0x7, 0x3, 0xe);
    assert Next(Hex(0xf, 0x2, 0xb, 0x0, 0x4, 0x7, 0x3, 0xe)) == Hex(0x7, 0x9, 0x5, 0x8, 0x2, 0x3, 0x9, 0xf);
    assert Next(Hex(0x7, 0x9, 0x5, 0x8, 0x2, 0x3, 0x9, 0xf)) == Hex(0xd, 0x1, 0x1, 0x4, 0x9, 0x2, 0xe, 0xf);
    assert Next(Hex(0xd, 0x1, 0x1, 0x4, 0x9, 0x2, 0xe, 0xf)) == Hex(0x8, 0x5, 0x3, 0x2, 0xc, 0xa, 0x5, 0x7);
    assert Next(Hex(0x8, 0x5, 0x3, 0x2, 0xc, 0xa, 0x5, 0x7)) == Hex(0xa, 0xf, 0x2, 0x1, 0xe, 0x6, 0x0, 0xb);
    assert Next(Hex(0xa, 0xf, 0x2, 0x1, 0xe, 0x6, 0x0, 0xb)) == Hex(0xb, 0xa, 0x2, 0x8, 0x7, 0x0, 0x2, 0x5);
  }

  lemma Three(w: Word)
    requires w == WithByte(Hex(0xb, 0x0, 0xa, 0xc, 0xb, 0xb, 0x3, 0x2), 3, 3)
    ensures Next(Next(Next(Next(Next(Next(Next(Next(w)))))))) == Hex(0x7, 0x7, 0xb, 0x7, 0x9, 0xc, 0x2, 0xd)
  {
    assert w == Hex(0xb, 0x0, 0xa, 0xc, 0xb, 0xb, 0x0, 0x1);
    assert Next(w) == Hex(0xb, 0x5, 0xe, 0xe, 0xd, 0xe, 0xa, 0x0);
    assert Next(Hex(0xb, 0x5, 0xe, 0xe, 0xd, 0xe, 0xa, 0x0)) == Hex(0x5, 0xa, 0xf, 0x7, 0x6, 0xf, 0x5, 0x0);
    assert Next(Hex(0x5, 0xa, 0xf, 0x7, 0x6, 0xf, 0x5, 0x0)) == Hex(0x2, 0xd, 0x7, 0xb, 0xb, 0x7, 0xa, 0x8);
    assert Next(Hex(0x2, 0xd, 0x7, 0xb, 0xb, 0x7, 0xa, 0x8)) == Hex(0x1, 0x6, 0xb, 0xd, 0xd, 0xb, 0xd, 0x4);
    assert Next(Hex(0x1, 0x6, 0xb, 0xd, 0xd, 0xb, 0xd, 0x4)) == Hex(0x0, 0xb, 0x5, 0xe, 0xe, 0xd, 0xe, 0xa);
    assert Next(Hex(0x0, 0xb, 0x5, 0xe, 0xe, 0xd, 0xe, 0xa)) == Hex(0x0, 0x5, 0xa, 0xf, 0x7, 0x6, 0xf, 0x5);
    assert Next(Hex(0x0, 0x5, 0xa, 0xf, 0x7, 0x6, 0xf, 0x5)) == Hex(0xe, 0xf, 0x6, 0xf, 0x3, 0x8, 0x5, 0xa);
  }

  lemma Four(w: Word)
    requires w == WithByte(Hex(0x7, 0x7, 0xb, 0x7, 0x9, 0xc, 0x2, 0xd), 3, 4)
    ensures Next(Next(Next(Next(Next(Next(Next(Next(w)))))))) == Hex(0x6, 0x4, 0x1, 0xc, 0x1, 0xf, 0x5, 0xc)
  {
    assert w == Hex(0x7, 0x7, 0xb, 0x7, 0x9, 0xc, 0x1, 0x9);
    assert Next(w) == Hex(0xd, 0x6, 0x6, 0x3, 0x4, 0xd, 0x2, 0xc);
    assert Next(Hex(0xd, 0x6, 0x6, 0x3, 0x4, 0xd, 0x2, 0xc)) == Hex(0x6, 0xb, 0x3, 0x1, 0xa, 0x6, 0x9, 0x6);
    assert Next(Hex(0x6, 0xb, 0x3, 0x1, 0xa, 0x6, 0x9, 0x6)) == Hex(0x3, 0x5, 0x9, 0x8, 0xd, 0x3, 0x4, 0xb);
    assert Next(Hex(0x3, 0x5, 0x9, 0x8, 0xd, 0x3, 0x4, 0xb)) == Hex(0xf, 0x7, 0x7, 0x4, 0xe, 0xa, 0x8, 0x5);
    assert Next(Hex(0xf, 0x7, 0x7, 0x4, 0xe, 0xa, 0x8, 0x5)) == Hex(0x9, 0x6, 0x0, 0x2, 0xf, 0x6, 0x6, 0x2);
    assert Next(Hex(0x9, 0x6, 0x0, 0x2, 0xf, 0x6, 0x6, 0x2)) == Hex(0x4, 0xb, 0x0, 0x1, 0x7, 0xb, 0x3, 0x1);
    assert Next(Hex(0x4, 0xb, 0x0, 0x1, 0x7, 0xb, 0x3, 0x1)) == Hex(0xc, 0x8, 0x3, 0x8, 0x3, 0xe, 0xb, 0x8);
  }

  lemma Five(w: Word)
    requires w == WithByte(Hex(0x6, 0x4, 0x1, 0xc, 0x1, 0xf, 0x5, 0xc), 3, 5)
    ensures Next(Next(Next(Next(Next(Next(Next(Next(w)))))))) == Hex(0x3, 0x4, 0x0, 0xa, 0xc, 0x5, 0xe, 0x3)
  {
    assert w == Hex(0x6, 0x4, 0x1, 0xc, 0x1, 0xf, 0x6, 0x9);
    assert Next(w) == Hex(0xd, 0xf, 0xb, 0x6, 0x8, 0xc, 0x9, 0x4);
    assert Next(Hex(0xd, 0xf, 0xb, 0x6, 0x8, 0xc, 0x9, 0x4)) == Hex(0x6, 0xf, 0xd, 0xb, 0x4, 0x6, 0x4, 0xa);
    assert Next(Hex(0x6, 0xf, 0xd, 0xb, 0x4, 0x6, 0x4, 0xa)) == Hex(0x3, 0x7, 0xe, 0xd, 0xa, 0x3, 0x2, 0x5);
    assert Next(Hex(0x3, 0x7, 0xe, 0xd, 0xa, 0x3, 0x2, 0x5)) == Hex(0xf, 0x6, 0x4, 0xe, 0x5, 0x2, 0xb, 0x2);
    assert Next(Hex(0xf, 0x6, 0x4, 0xe, 0x5, 0x2, 0xb, 0x2)) == Hex(0x7, 0xb, 0x2, 0x7, 0x2, 0x9, 0x5, 0x9);
    assert Next(Hex(0x7, 0xb, 0x2, 0x7, 0x2, 0x9, 0x5, 0x9)) == Hex(0xd, 0x0, 0x2, 0xb, 0x1, 0x7, 0x8, 0xc);
    assert Next(Hex(0xd, 0x0, 0x2, 0xb, 0x1, 0x7, 0x8, 0xc)) == Hex(0x6, 0x8, 0x1, 0x5, 0x8, 0xb, 0xc, 0x6);
  }

  lemma Six(w: Word)
    requires w == WithByte(Hex(0x3, 0x4, 0x0, 0xa, 0xc, 0x5, 0xe, 0x3), 3, 6)
    ensures Next(Next(Next(Next(Next(Next(Next(Next(w)))))))) == Hex(0xf, 0x6, 0x8, 0xd, 0x2, 0xc, 0x9, 0xe)
  {
    assert w == Hex(0x3, 0x4, 0x0, 0xa, 0xc, 0x5, 0xd, 0x5);
    assert Next(w) == Hex(0xf, 0x7, 0xb, 0xd, 0xe, 0x1, 0xc, 0xa);
    assert Next(Hex(0xf, 0x7, 0xb, 0xd, 0xe, 0x1, 0xc, 0xa)) == Hex(0x7, 0xb, 0xd, 0xe, 0xf, 0x0, 0xe, 0x5);
    assert Next(Hex(0x7, 0xb, 0xd, 0xe, 0xf, 0x0, 0xe, 0x5)) == Hex(0xd, 0x0, 0x5, 0x7, 0xf, 0xb, 0x5, 0x2);
    assert Next(Hex(0xd, 0x0, 0x5, 0x7, 0xf, 0xb, 0x5, 0x2)) == Hex(0x6, 0x8, 0x2, 0xb, 0xf, 0xd, 0xa, 0x9);
    assert Next(Hex(0x6, 0x8, 0x2, 0xb, 0xf, 0xd, 0xa, 0x9)) == Hex(0xd, 0x9, 0xa, 0xd, 0x7, 0xd, 0xf, 0x4);
    assert Next(Hex(0xd, 0x9, 0xa, 0xd, 0x7, 0xd, 0xf, 0x4)) == Hex(0x6, 0xc, 0xd, 0x6, 0xb, 0xe, 0xf, 0xa);
    assert Next(Hex(0x6, 0xc, 0xd, 0x6, 0xb, 0xe, 0xf, 0xa)) == Hex(0x3, 0x6, 0x6, 0xb, 0x5, 0xf, 0x7, 0xd);
  }

  lemma Seven(w: Word)
    requires w == WithByte(Hex(0xf, 0x6, 0x8, 0xd, 0x2, 0xc, 0x9, 0xe), 3, 7)
    ensures Next(Next(Next(Next(Next(Next(Next(Next(w)))))))) == Hex(0xa, 0xf, 0xf, 0xc, 0x9, 0x6, 0x6, 0x0)
  {
    assert w == Hex(0xf, 0x6, 0x8, 0xd, 0x2, 0xc, 0xa, 0x9);
    assert Next(w) == Hex(0x9, 0x6, 0xf, 0xe, 0x1, 0x5, 0x7, 0x4);
    assert Next(Hex(0x9, 0x6, 0xf, 0xe, 0x1, 0x5, 0x7, 0x4)) == Hex(0x4, 0xb, 0x7, 0xf, 0x0, 0xa, 0xb, 0xa);
    assert Next(Hex(0x4, 0xb, 0x7, 0xf, 0x0, 0xa, 0xb, 0xa)) == Hex(0x2, 0x5, 0xb, 0xf, 0x8, 0x5, 0x5, 0xd);
    assert Next(Hex(0x2, 0x5, 0xb, 0xf, 0x8, 0x5, 0x5, 0xd)) == Hex(0xf, 0xf, 0x6, 0x7, 0x4, 0x1, 0x8, 0xe);
    assert Next(Hex(0xf, 0xf, 0x6, 0x7, 0x4, 0x1, 0x8, 0xe)) == Hex(0x7, 0xf, 0xb, 0x3, 0xa, 0x0, 0xc, 0x7);
    assert Next(Hex(0x7, 0xf, 0xb, 0x3, 0xa, 0x0, 0xc, 0x7)) == Hex(0xd, 0x2, 0x6, 0x1, 0x5, 0x3, 0x4, 0x3);
    assert Next(Hex(0xd, 0x2, 0x6, 0x1, 0x5, 0x3, 0x4, 0x3)) == Hex(0x8, 0x4, 0x8, 0x8, 0x2, 0xa, 0x8, 0x1);
  }

  lemma Eight(w: Word)
    requires w == WithByte(Hex(0xa, 0xf, 0xf, 0xc, 0x9, 0x6, 0x6, 0x0), 3, 8)
    ensures Next(Next(Next(Next(Next(Next(Next(Next(w)))))))) == Hex(0x6, 0x5, 0x1, 0xf, 0x2, 0x5, 0x5, 0x0)
  {
    assert w == Hex(0xa, 0xf, 0xf, 0xc, 0x9, 0x6, 0x5, 0x8);
    assert Next(w) == Hex(0x5, 0x7, 0xf, 0xe, 0x4, 0xb, 0x2, 0xc);
    assert Next(Hex(0x5, 0x7, 0xf, 0xe, 0x4, 0xb, 0x2, 0xc)) == Hex(0x2, 0xb, 0xf, 0xf, 0x2, 0x5, 0x9, 0x6);
    assert Next(Hex(0x2, 0xb, 0xf, 0xf, 0x2, 0x5, 0x9, 0x6)) == Hex(0x1, 0x5, 0xf, 0xf, 0x9, 0x2, 0xc, 0xb);
    assert Next(Hex(0x1, 0x5, 0xf, 0xf, 0x9, 0x2, 0xc, 0xb)) == Hex(0xe, 0x7, 0x4, 0x7, 0x4, 0xa, 0x4, 0x5);
    assert Next(Hex(0xe, 0x7, 0x4, 0x7, 0x4, 0xa, 0x4, 0x5)) == Hex(0x9, 0xe, 0x1, 0xb, 0x2, 0x6, 0x0, 0x2);
    assert Next(Hex(0x9, 0xe, 0x1, 0xb, 0x2, 0x6, 0x0, 0x2)) == Hex(0x4, 0xf, 0x0, 0xd, 0x9, 0x3, 0x0, 0x1);
    assert Next(Hex(0x4, 0xf, 0x0, 0xd, 0x9, 0x3, 0x0, 0x1)) == Hex(0xc, 0xa, 0x3, 0xe, 0x4, 0xa, 0xa, 0x0);
  }

  lemma Nine(w: Word)
    requires w == WithByte(Hex(0x6, 0x5, 0x1, 0xf, 0x2, 0x5, 0x5, 0x0), 3, 9)
    ensures Next(Next(Next(Next(Next(Next(Next(Next(w)))))))) == Hex(0x3, 0x4, 0x0, 0xb, 0xc, 0x6, 0xd, 0x9)
  {
    assert w == Hex(0x6, 0x5, 0x1, 0xf, 0x2, 0x5, 0x6, 0x9);
    assert Next(w) == Hex(0xd, 0xf, 0x3, 0x7, 0x1, 0x1, 0x9, 0x4);
    assert Next(Hex(0xd, 0xf, 0x3, 0x7, 0x1, 0x1, 0x9, 0x4)) == Hex(0x6, 0xf, 0x9, 0xb, 0x8, 0x8, 0xc, 0xa);
    assert Next(Hex(0x6, 0xf, 0x9, 0xb, 0x8, 0x8, 0xc, 0xa)) == Hex(0x3, 0x7, 0xc, 0xd, 0xc, 0x4, 0x6, 0x5);
    assert Next(Hex(0x3, 0x7, 0xc, 0xd, 0xc, 0x4, 0x6, 0x5)) == Hex(0xf, 0x6, 0x5, 0xe, 0x6, 0x1, 0x1, 0x2);
    assert Next(Hex(0xf, 0x6, 0x5, 0xe, 0x6, 0x1, 0x1, 0x2)) == Hex(0x7, 0xb, 0x2, 0xf, 0x3, 0x0, 0x8, 0x9);
    assert Next(Hex(0x7, 0xb, 0x2, 0xf, 0x3, 0x0, 0x8, 0x9)) == Hex(0xd, 0x0, 0x2, 0xf, 0x1, 0xb, 0x6, 0x4);
    assert Next(Hex(0xd, 0x0, 0x2, 0xf, 0x1, 0xb, 0x6, 0x4)) == Hex(0x6, 0x8, 0x1, 0x7, 0x8, 0xd, 0xb, 0x2);
  }

  lemma Checked()
    ensures BitUpdate(BitsOf(Hex(0xf, 0xf, 0xf, 0xf, 0xf, 0xf, 0xf, 0xf)), CHECK)
         == BitsOf(Hex(0x3, 0x4, 0x0, 0xb, 0xc, 0x6, 0xd, 0x9))
  {
    hide Next, WithByte, BitsOf, BitUpdate, Hex;
    One(WithByte(Hex(0xf, 0xf, 0xf, 0xf, 0xf, 0xf, 0xf, 0xf), 3, 1));
    ByteNext(Hex(0xf, 0xf, 0xf, 0xf, 0xf, 0xf, 0xf, 0xf), CHECK[0..], 3, 1);
    Two(WithByte(Hex(0x7, 0xc, 0x2, 0x3, 0x1, 0x0, 0x4, 0x8), 3, 2));
    ByteNext(Hex(0x7, 0xc, 0x2, 0x3, 0x1, 0x0, 0x4, 0x8), CHECK[1..], 3, 2);
    Three(WithByte(Hex(0xb, 0x0, 0xa, 0xc, 0xb, 0xb, 0x3, 0x2), 3, 3));
    ByteNext(Hex(0xb, 0x0, 0xa, 0xc, 0xb, 0xb, 0x3, 0x2), CHECK[2..], 3, 3);
    Four(WithByte(Hex(0x7, 0x7, 0xb, 0x7, 0x9, 0xc, 0x2, 0xd), 3, 4));
    ByteNext(Hex(0x7, 0x7, 0xb, 0x7, 0x9, 0xc, 0x2, 0xd), CHECK[3..], 3, 4);
    Five(WithByte(Hex(0x6, 0x4, 0x1, 0xc, 0x1, 0xf, 0x5, 0xc), 3, 5));
    ByteNext(Hex(0x6, 0x4, 0x1, 0xc, 0x1, 0xf, 0x5, 0xc), CHECK[4..], 3, 5);
    Six(WithByte(Hex(0x3, 0x4, 0x0, 0xa, 0xc, 0x5, 0xe, 0x3), 3, 6));
    ByteNext(Hex(0x3, 0x4, 0x0, 0xa, 0xc, 0x5, 0xe, 0x3), CHECK[5..], 3, 6);
    Seven(WithByte(Hex(0xf, 0x6, 0x8, 0xd, 0x2, 0xc, 0x9, 0xe), 3, 7));
    ByteNext(Hex(0xf, 0x6, 0x8, 0xd, 0x2, 0xc, 0x9, 0xe), CHECK[6..], 3, 7);
    Eight(WithByte(Hex(0xa, 0xf, 0xf, 0xc, 0x9, 0x6, 0x6, 0x0), 3, 8));
    ByteNext(Hex(0xa, 0xf, 0xf, 0xc, 0x9, 0x6, 0x6, 0x0), CHECK[7..], 3, 8);
    Nine(WithByte(Hex(0x6, 0x5, 0x1, 0xf, 0x2, 0x5, 0x5, 0x0), 3, 9));
    ByteNext(Hex(0x6, 0x5, 0x1, 0xf, 0x2, 0x5, 0x5, 0x0), CHECK[8..], 3, 9);
    assert CHECK[0..] == CHECK && CHECK[9..] == [];
    NoMore(BitsOf(Hex(0x3, 0x4, 0x0, 0xb, 0xc, 0x6, 0xd, 0x9)));
  }

  lemma NoMore(w: Bits)
    requires IsWord(w)
    ensures BitUpdate(w, []) == w
  {
  }

  lemma OnesAre()
    ensures Ones() == BitsOf(Hex(0xf, 0xf, 0xf, 0xf, 0xf, 0xf, 0xf, 0xf))
  {
  }

  /** The digest of "123456789". */
  lemma CheckValue()
    ensures Crc(CHECK) == BitsOf(Hex(0xc, 0xb, 0xf, 0x4, 0x3, 0x9, 0x2, 0x6))
  {
    hide BitsOf, BitUpdate, CHECK, Xor;
    OnesAre();
    Checked();
    SumBits(Hex(0x3, 0x4, 0x0, 0xb, 0xc, 0x6, 0xd, 0x9), Hex(0xf, 0xf, 0xf, 0xf, 0xf, 0xf, 0xf, 0xf));
  }

  function Number(d: Digit): nat {
    BitAt(d, 0) + 2 * BitAt(d, 1) + 4 * BitAt(d, 2) + 8 * BitAt(d, 3)
  }

  lemma NumberOf(x: nat)
    requires x < 16
    ensures Number(Nibble(x)) == x
  {
  }

  /** One more hexadecimal digit below the others. */
  lemma DigitStep(w: Word, i: nat, d: nat, above: nat)
    requires i < 8 && d < 16 && DigitAt(w, i) == Nibble(d) && Value(BitsOf(w)[4 * i + 4..]) == above
    ensures Value(BitsOf(w)[4 * i..]) == 16 * above + d
  {
    hide Value, Pow2, DigitAt, BitAt, Nibble;
    ValueFour(BitsOf(w), 4 * i);
    NumberOf(d);
  }

  /** As a number. */
  lemma CheckNumber()
    ensures Value(Crc(CHECK)) == 0xcbf4_3926
  {
    hide Value, Pow2, CHECK, BitsOf, Nibble;
    CheckValue();
    hide Crc;
    var w := Hex(0xc, 0xb, 0xf, 0x4, 0x3, 0x9, 0x2, 0x6);
    NoBits(BitsOf(w)[32..]);
    DigitStep(w, 7, 0xc, 0);
    DigitStep(w, 6, 0xb, 0xc);
    DigitStep(w, 5, 0xf, 0xcb);
    DigitStep(w, 4, 0x4, 0xcbf);
    DigitStep(w, 3, 0x3, 0xcbf4);
    DigitStep(w, 2, 0x9, 0xc_bf43);
    DigitStep(w, 1, 0x2, 0xcb_f439);
    DigitStep(w, 0, 0x6, 0xcbf_4392);
    assert BitsOf(w)[0..] == BitsOf(w);
  }
}
