/** The LZMA range decoder, and the arithmetic coder it inverts. */
module LzmaRange {
  import opened Prelude

  const TOP: nat := 0x100_0000
  const FULL_RANGE: u32 := 0xffff_ffff
  const PROB_INITIAL: Prob := 1024

  /** Adaptive probabilities never leave this interval, whatever is decoded. */
  type Prob = p: int | 31 <= p <= 2017 witness 1024

  function Adapt(p: Prob, b: bit): Prob {
    if b == 0 then p as int + (2048 - p as int) / 32 else p as int - p as int / 32
  }

  /** The two registers, and the bytes still to be read. */
  datatype Registers = Registers(range: u32, code: u32, rest: seq<byte>)

  /** One byte always restores a range of at least 24 bits. */
  function Normalize(r: Registers): (n: Result<Registers>)
    ensures n.Ok? && r.range >= 0x1_0000 ==> n.value.range >= TOP
    ensures n.Err? <==> r.range < TOP && r.rest == []
  {
    if r.range >= TOP then Ok(r)
    else if r.rest == [] then Err(Format)
    else
      var code := r.code as int * 0x100 % 0x1_0000_0000 + r.rest[0] as int;
      Ok(Registers(r.range as int * 0x100 % 0x1_0000_0000, code, r.rest[1..]))
  }

  function Bound(range: nat, p: Prob): nat {
    range / 2048 * p as int
  }

  /** Both parts of a split range are wide enough for one byte to restore 24 bits. */
  lemma BoundInside(range: nat, p: Prob)
    requires TOP <= range < 0x1_0000_0000
    ensures 0x1_0000 <= Bound(range, p) && Bound(range, p) + 0x1_0000 <= range
  {
    var q: nat, p': nat := range / 2048, p;
    MulAtMost(31, p', q);
    MulAtMost(p', 2017, q);
    assert q * p' == p' * q;
  }

  /** One adaptive bit: `Probability::decode` without its own state. */
  function BitStep(r: Registers, p: Prob): (d: Result<(bit, Registers)>)
    requires r.range >= TOP
    ensures d.Ok? ==> d.value.1.range >= TOP
  {
    BoundInside(r.range, p);
    var bound := Bound(r.range, p);
    if r.code < bound then
      var n :- Normalize(r.(range := bound));
      Ok((0, n))
    else
      var n :- Normalize(r.(code := r.code - bound, range := r.range - bound));
      Ok((1, n))
  }

  function DirectStep(r: Registers): (d: Result<(bit, Registers)>)
    requires r.range >= TOP
    ensures d.Ok? ==> d.value.1.range >= TOP
  {
    var half := r.range / 2;
    if r.code >= half then
      var n :- Normalize(r.(range := half, code := r.code - half));
      Ok((1, n))
    else
      var n :- Normalize(r.(range := half));
      Ok((0, n))
  }

  // ---- arithmetic coding ----

  /** A binary decision: under an adaptive probability, or one of two equal halves. */
  datatype Decision = Adaptive(p: Prob, b: bit) | Direct(b: bit)

  function Step(r: Registers, d: Decision): (x: Result<(bit, Registers)>)
    requires r.range >= TOP
    ensures x.Ok? ==> x.value.1.range >= TOP
  {
    match d
    case Adaptive(p, _) => BitStep(r, p)
    case Direct(_) => DirectStep(r)
  }

  /** The part of [0, range) a decision selects. */
  datatype Part = Part(offset: nat, width: nat)

  function Carve(range: nat, d: Decision): (part: Part)
    requires TOP <= range < 0x1_0000_0000
    ensures 0x1_0000 <= part.width && part.offset + part.width <= range
  {
    match d
    case Adaptive(p, b) =>
      BoundInside(range, p);
      if b == 0 then Part(0, Bound(range, p)) else Part(Bound(range, p), range - Bound(range, p))
    case Direct(b) =>
      Part(if b == 0 then 0 else range / 2, range / 2)
  }

  /** The sub-interval [low, low + width) of [0, range * 256^shifts) that a run of decisions selects. */
  datatype Interval = Interval(shifts: nat, low: nat, width: nat)

  function Shifted(width: nat): nat {
    if width < TOP then 0x100 * width else width
  }

  function Narrow(range: nat, ds: seq<Decision>): (i: Interval)
    requires TOP <= range < 0x1_0000_0000
    ensures i.width >= TOP
    decreases |ds|
  {
    if ds == [] then Interval(0, 0, range)
    else
      var part := Carve(range, ds[0]);
      var tail := Narrow(Shifted(part.width), ds[1..]);
      var shifts := tail.shifts + if part.width < TOP then 1 else 0;
      Interval(shifts, part.offset * Pow256(shifts) + tail.low, tail.width)
  }

  lemma {:induction false} NarrowInside(range: nat, ds: seq<Decision>)
    requires TOP <= range < 0x1_0000_0000
    ensures var i := Narrow(range, ds); i.low + i.width <= range * Pow256(i.shifts)
    decreases |ds|
  {
    hide Carve, Bound;
    if ds != [] {
      var part := Carve(range, ds[0]);
      var tail := Narrow(Shifted(part.width), ds[1..]);
      NarrowInside(Shifted(part.width), ds[1..]);
      var shifts := Narrow(range, ds).shifts;
      ShiftedScale(part.width, tail.shifts, shifts);
      PartScale(part.offset, part.width, range, Pow256(shifts), tail.low + tail.width);
    }
  }

  lemma PartScale(offset: nat, width: nat, range: nat, p: nat, end: nat)
    requires offset + width <= range && end <= width * p
    ensures offset * p + end <= range * p
  {
    MulAtMost(offset + width, range, p);
    assert (offset + width) * p == offset * p + width * p;
  }

  /** A number in the part [offset, offset + width) scaled by `p` has its leading digit there. */
  lemma LeadingDigit(code: nat, offset: nat, width: nat, p: nat, bytes: nat)
    requires bytes < p && offset * p <= code * p + bytes < offset * p + width * p
    ensures offset <= code < offset + width
    ensures (code - offset) * p + bytes == code * p + bytes - offset * p
  {
    MulBelow(code, offset, p, bytes);
    assert (code - offset) * p == code * p - offset * p;
    MulBelow(code - offset, width, p, bytes);
  }

  lemma ShiftedScale(width: nat, k: nat, shifts: nat)
    requires shifts == k + if width < TOP then 1 else 0
    ensures Shifted(width) * Pow256(k) == width * Pow256(shifts)
  {
    if width < TOP {
      assert 0x100 * width * Pow256(k) == width * (0x100 * Pow256(k));
    }
  }

  /** The number formed by the code register and the next `k` bytes. */
  function Number(r: Registers, k: nat): nat
    requires k <= |r.rest|
  {
    r.code as int * Pow256(k) + BigEndian(r.rest[..k])
  }

  lemma NumberZero(r: Registers)
    ensures Number(r, 0) == r.code
  {
  }

  /** That number lies in the interval the decisions select. */
  predicate Presents(r: Registers, ds: seq<Decision>)
    requires r.range >= TOP
  {
    var i := Narrow(r.range, ds);
    i.shifts <= |r.rest| && i.low <= Number(r, i.shifts) < i.low + i.width
  }

  /** Decoding with the probabilities of `ds` gives exactly the bits of `ds` and ends in `Some` registers. */
  function Replay(r: Registers, ds: seq<Decision>): (x: Option<Registers>)
    requires r.range >= TOP
    ensures x.Some? ==> x.value.range >= TOP
    decreases |ds|
  {
    if ds == [] then Some(r)
    else
      match Step(r, ds[0])
      case Err(_) => None
      case Ok((b, n)) => if b == ds[0].b then Replay(n, ds[1..]) else None
  }

  /** One step of the inverse: the decoder takes the decision the number was carved with. */
  lemma PresentsStep(r: Registers, ds: seq<Decision>)
    requires r.range >= TOP && ds != [] && Presents(r, ds)
    ensures var x := Step(r, ds[0]);
            && x.Ok? && x.value.0 == ds[0].b && Presents(x.value.1, ds[1..])
    ensures var n, part := Step(r, ds[0]).value.1, Carve(r.range, ds[0]);
            var k, shifts := Narrow(n.range, ds[1..]).shifts, Narrow(r.range, ds).shifts;
            && n.range == Shifted(part.width)
            && n.rest == r.rest[shifts - k..] && k <= |n.rest|
            && Number(n, k) == Number(r, shifts) - part.offset * Pow256(shifts)
  {
    hide Carve, Bound, Step, BigEndian, Pow256;
    var part := Carve(r.range, ds[0]);
    var k := Narrow(Shifted(part.width), ds[1..]).shifts;
    var shifts := Narrow(r.range, ds).shifts;
    BigEndianBound(r.rest[..shifts]);
    NarrowInside(Shifted(part.width), ds[1..]);
    ShiftedScale(part.width, k, shifts);
    LeadingDigit(r.code, part.offset, part.width, Pow256(shifts), BigEndian(r.rest[..shifts]));
    StepTaken(r, ds[0]);
    if part.width < TOP {
      NextByte(r.code - part.offset, r.rest, k);
    }
  }

  /** Below 24 bits nothing is shifted out of either register. */
  lemma NormalizeExact(r: Registers)
    requires r.code < r.range && (r.range < TOP ==> r.rest != [])
    ensures Normalize(r).Ok?
    ensures r.range >= TOP ==> Normalize(r).value == r
    ensures r.range < TOP ==>
              var n := Normalize(r).value;
              n == Registers(0x100 * r.range as int, 0x100 * r.code as int + r.rest[0] as int, r.rest[1..])
  {
  }

  /** The registers after a decision, when the code lies in the part that decision selects. */
  lemma StepTaken(r: Registers, d: Decision)
    requires r.range >= TOP
    requires var part := Carve(r.range, d);
             part.offset <= r.code < part.offset + part.width && (part.width < TOP ==> r.rest != [])
    ensures var part, x := Carve(r.range, d), Step(r, d);
            && x.Ok? && x.value.0 == d.b && x.value.1.range == Shifted(part.width)
            && x.value.1.code == (if part.width < TOP then 0x100 * (r.code - part.offset) + r.rest[0] as int
                                  else r.code - part.offset)
            && x.value.1.rest == (if part.width < TOP then r.rest[1..] else r.rest)
  {
    hide Normalize, Bound;
    var part := Carve(r.range, d);
    NormalizeExact(Registers(part.width, r.code - part.offset, r.rest));
  }

  lemma NextByte(code: nat, rest: seq<byte>, k: nat)
    requires k + 1 <= |rest|
    ensures code * Pow256(k + 1) + BigEndian(rest[..k + 1])
         == (0x100 * code + rest[0] as int) * Pow256(k) + BigEndian(rest[1..][..k])
  {
    assert rest[..k + 1][1..] == rest[1..][..k];
    NextDigit(code, rest[0], Pow256(k));
  }

  /** The range decoder inverts arithmetic coding: any number in the interval gives back the decisions. */
  lemma {:induction false} ReplayInverts(r: Registers, ds: seq<Decision>)
    requires r.range >= TOP && Presents(r, ds)
    ensures Replay(r, ds).Some?
    ensures var i, end := Narrow(r.range, ds), Replay(r, ds).value;
            && end.range == i.width
            && end.rest == r.rest[i.shifts..]
            && end.code == Number(r, i.shifts) - i.low
    decreases |ds|
  {
    hide Step, BigEndian, Carve, Number;
    if ds == [] {
      NumberZero(r);
    } else {
      PresentsStep(r, ds);
      ReplayInverts(Step(r, ds[0]).value.1, ds[1..]);
    }
  }

  lemma {:induction false} ReplayAppend(r: Registers, a: seq<Decision>, b: seq<Decision>)
    requires r.range >= TOP
    ensures Replay(r, a).None? ==> Replay(r, a + b).None?
    ensures Replay(r, a).Some? ==> Replay(r, a + b) == Replay(Replay(r, a).value, b)
    decreases |a|
  {
    hide Step;
    if a == [] {
      assert a + b == b;
    } else {
      assert (a + b)[0] == a[0] && (a + b)[1..] == a[1..] + b;
      var x := Step(r, a[0]);
      if x.Ok? {
        ReplayAppend(x.value.1, a[1..], b);
      }
    }
  }

  // ---- whole range-coded streams ----

  /** `RangeDecoder::new`: a zero byte, four bytes of code, and the code below the full range. */
  function Start(input: seq<byte>): (r: Result<Registers>)
    ensures r.Ok? ==> r.value.range >= TOP
  {
    if |input| < 1 || input[0] != 0 || |input| < 5 then Err(Format)
    else
      BigEndianBound(input[1..5]);
      var code := BigEndian(input[1..5]);
      if code >= FULL_RANGE then Err(Format) else Ok(Registers(FULL_RANGE, code, input[5..]))
  }

  /** Every number of the interval, written after a zero byte and followed by anything, replays the decisions. */
  lemma NumberInverts(input: seq<byte>, ds: seq<Decision>)
    requires var i := Narrow(FULL_RANGE, ds);
             && |input| >= 5 + i.shifts && input[0] == 0
             && i.low <= BigEndian(input[1..5 + i.shifts]) < i.low + i.width
    ensures Start(input).Ok? && Replay(Start(input).value, ds).Some?
    ensures var i, end := Narrow(FULL_RANGE, ds), Replay(Start(input).value, ds).value;
            && end.rest == input[5 + i.shifts..]
            && end.code == BigEndian(input[1..5 + i.shifts]) - i.low
  {
    var i := Narrow(FULL_RANGE, ds);
    var body := input[1..5 + i.shifts];
    BigEndianSplit(body, 4);
    assert body[..4] == input[1..5] && body[4..] == input[5..][..i.shifts];
    BigEndianBound(input[1..5]);
    BigEndianBound(body[4..]);
    NarrowInside(FULL_RANGE, ds);
    MulBelow(BigEndian(input[1..5]), FULL_RANGE, Pow256(i.shifts), BigEndian(body[4..]));
    ReplayInverts(Start(input).value, ds);
  }

  /** The stream an arithmetic coder writes: the lower end of the interval. */
  function CodeBytes(ds: seq<Decision>): seq<byte> {
    var i := Narrow(FULL_RANGE, ds);
    [0] + ToBytes(i.low, 4 + i.shifts)
  }

  /** Its bytes are the lowest number of the interval. */
  lemma CodePresented(ds: seq<Decision>)
    ensures var i, input := Narrow(FULL_RANGE, ds), CodeBytes(ds);
            && |input| == 5 + i.shifts && input[0] == 0
            && BigEndian(input[1..5 + i.shifts]) == i.low
  {
    var i := Narrow(FULL_RANGE, ds);
    NarrowInside(FULL_RANGE, ds);
    MulAtMost(FULL_RANGE, Pow256(4), Pow256(i.shifts));
    PowSum(4, i.shifts);
    ToBytesValue(i.low, 4 + i.shifts);
    assert CodeBytes(ds)[1..5 + i.shifts] == ToBytes(i.low, 4 + i.shifts);
  }

  /** The encoded stream decodes to its decisions, consumes every byte, and leaves the code at zero. */
  lemma CodeBytesDecode(ds: seq<Decision>)
    ensures Start(CodeBytes(ds)).Ok? && Replay(Start(CodeBytes(ds)).value, ds).Some?
    ensures var end := Replay(Start(CodeBytes(ds)).value, ds).value; end.code == 0 && end.rest == []
  {
    CodePresented(ds);
    NumberInverts(CodeBytes(ds), ds);
  }

  lemma {:induction false} PowSum(a: nat, b: nat)
    ensures Pow256(a + b) == Pow256(a) * Pow256(b)
  {
    if a > 0 {
      PowSum(a - 1, b);
      assert 0x100 * (Pow256(a - 1) * Pow256(b)) == (0x100 * Pow256(a - 1)) * Pow256(b);
    }
  }

  // ---- arbitrary input ----

  /** An adaptive bit keeps the code below the range. */
  lemma BitKeepsCode(r: Registers, p: Prob)
    requires r.range >= TOP && r.code < r.range && BitStep(r, p).Ok?
    ensures var n := BitStep(r, p).value.1; n.code < n.range
  {
    BoundInside(r.range, p);
    hide Bound, Normalize;
    var bound := Bound(r.range, p);
    var split := if r.code < bound then r.(range := bound)
                 else r.(code := r.code - bound, range := r.range - bound);
    NeedsByte(split);
    NormalizeExact(split);
  }

  lemma NeedsByte(r: Registers)
    ensures Normalize(r).Ok? <==> r.range >= TOP || r.rest != []
  {
  }

  /** A direct bit drops the odd unit of the range: the code stays below it unless it was that unit. */
  lemma DirectKeepsCode(r: Registers)
    requires r.range >= TOP && r.code < r.range && DirectStep(r).Ok?
    ensures var n := DirectStep(r).value.1;
            n.code < n.range <==> !(r.range % 2 == 1 && r.code == r.range - 1)
  {
  }

  /** The decoder as the program runs it: registers and cursor updated in place. */
  class RangeDecoder {
    const input: seq<byte>
    var cursor: nat
    var range: u32
    var code: u32

    ghost predicate Valid()
      reads this
    {
      cursor <= |input| && range >= TOP
    }

    ghost function View(): Registers
      requires cursor <= |input|
      reads this
    {
      Registers(range, code, input[cursor..])
    }

    constructor (input: seq<byte>)
      ensures Valid() && this.input == input && cursor == 0 && range == FULL_RANGE && code == 0
    {
      this.input := input;
      cursor, range, code := 0, FULL_RANGE, 0;
    }

    static method New(input: seq<byte>) returns (r: Result<RangeDecoder>)
      ensures r.Ok? <==> Start(input).Ok?
      ensures r.Ok? ==> fresh(r.value) && r.value.Valid() && r.value.View() == Start(input).value
      ensures r.Ok? ==> r.value.input == input
    {
      var decoder := new RangeDecoder(input);
      var first :- decoder.ReadByte();
      if first != 0 {
        return Err(Format);
      }
      for k := 0 to 4
        invariant decoder.Valid() && decoder.input == input && decoder.cursor == 1 + k && decoder.range == FULL_RANGE
        invariant decoder.code == BigEndian(input[1..1 + k]) && decoder.code < Pow256(k)
        invariant fresh(decoder)
      {
        var byte_ := decoder.ReadByte();
        if byte_.Err? {
          return Err(byte_.error);
        }
        assert input[1..2 + k] == input[1..1 + k] + [input[1 + k]];
        BigEndianAppend(input[1..1 + k], input[1 + k]);
        BigEndianBound(input[1..2 + k]);
        PowSmall(k + 1);
        decoder.code := decoder.code as int * 0x100 % 0x1_0000_0000 + byte_.value as int;
      }
      if decoder.code >= decoder.range {
        return Err(Format);
      }
      r := Ok(decoder);
    }

    method ReadByte() returns (r: Result<byte>)
      requires cursor <= |input|
      modifies `cursor
      ensures r.Err? <==> old(cursor) == |input|
      ensures r.Err? ==> cursor == old(cursor)
      ensures r.Ok? ==> r.value == input[old(cursor)] && cursor == old(cursor) + 1
    {
      if cursor == |input| {
        return Err(Format);
      }
      cursor := cursor + 1;
      r := Ok(input[cursor - 1]);
    }

    method Restore() returns (r: Result<()>)
      requires cursor <= |input|
      modifies this
      ensures r.Ok? <==> Normalize(old(View())).Ok?
      ensures r.Ok? ==> cursor <= |input| && View() == Normalize(old(View())).value
    {
      if range >= TOP {
        return Ok(());
      }
      range := range as int * 0x100 % 0x1_0000_0000;
      var byte_ :- ReadByte();
      code := code as int * 0x100 % 0x1_0000_0000 + byte_ as int;
      r := Ok(());
    }

    /** Decodes a bit and adapts its probability, in lockstep. */
    method DecodeBit(p: Prob) returns (r: Result<bit>, p': Prob)
      requires Valid()
      modifies this
      ensures r.Ok? <==> BitStep(old(View()), p).Ok?
      ensures r.Ok? ==> Valid() && BitStep(old(View()), p).value == (r.value, View()) && p' == Adapt(p, r.value)
    {
      BoundInside(range, p);
      hide Adapt;
      var bound: u32 := range / 2048 * p as int;
      assert bound == Bound(range, p);
      var b: bit := 0;
      if code < bound {
        range := bound;
        p' := Adapt(p, 0);
      } else {
        code := code - bound;
        range := range - bound;
        p' := Adapt(p, 1);
        b := 1;
      }
      var n := Restore();
      r := if n.Ok? then Ok(b) else Err(n.error);
    }

    method DecodeDirectBit() returns (r: Result<bit>)
      requires Valid()
      modifies this
      ensures r.Ok? <==> DirectStep(old(View())).Ok?
      ensures r.Ok? ==> Valid() && DirectStep(old(View())).value == (r.value, View())
    {
      range := range / 2;
      var b: bit := 0;
      if code >= range {
        code := code - range;
        b := 1;
      }
      var n := Restore();
      r := if n.Ok? then Ok(b) else Err(n.error);
    }

    predicate PossiblyAtEnd()
      reads this
    {
      code == 0
    }

    predicate IsFinished()
      reads this
    {
      cursor == |input|
    }
  }

  lemma PowSmall(k: nat)
    requires k <= 4
    ensures Pow256(k) <= 0x1_0000_0000
  {
    assert Pow256(1) == 0x100 && Pow256(2) == 0x1_0000 && Pow256(3) == 0x100_0000 && Pow256(4) == 0x1_0000_0000;
  }
}
