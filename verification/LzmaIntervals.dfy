/** Which numbers replay a list of decisions, and the odd unit that direct bits drop. */
module LzmaIntervals {
  import opened Prelude
  import opened LzmaRange

  /** A replay during which the code stays below the range. */
  predicate Inside(r: Registers, ds: seq<Decision>)
    requires r.range >= TOP
    decreases |ds|
  {
    && r.code < r.range
    && (ds == [] ||
        match Step(r, ds[0])
        case Err(_) => false
        case Ok((b, n)) => b == ds[0].b && Inside(n, ds[1..]))
  }

  /** The range after a replay does not depend on the number replayed. */
  lemma {:induction false} ReplayRange(r: Registers, ds: seq<Decision>)
    requires r.range >= TOP && Replay(r, ds).Some?
    ensures Replay(r, ds).value.range == Narrow(r.range, ds).width
    decreases |ds|
  {
    hide Step, Carve;
    if ds != [] {
      StepRange(r, ds[0]);
      ReplayRange(Step(r, ds[0]).value.1, ds[1..]);
    }
  }

  lemma StepRange(r: Registers, d: Decision)
    requires r.range >= TOP && Step(r, d).Ok? && Step(r, d).value.0 == d.b
    ensures Step(r, d).value.1.range == Shifted(Carve(r.range, d).width)
  {
    if d.Adaptive? { BoundInside(r.range, d.p); }
    hide Bound, Normalize;
    var width := Carve(r.range, d).width;
    forall code: u32 ensures Normalize(Registers(width, code, r.rest)).Ok? ==>
                               Normalize(Registers(width, code, r.rest)).value.range == Shifted(width)
    {
      NormalizeRange(Registers(width, code, r.rest));
    }
  }

  lemma NormalizeRange(r: Registers)
    requires Normalize(r).Ok?
    ensures Normalize(r).value.range == Shifted(r.range)
  {
  }

  lemma {:induction false} InsideReplays(r: Registers, ds: seq<Decision>)
    requires r.range >= TOP && Inside(r, ds)
    ensures Replay(r, ds).Some?
    ensures var n := Replay(r, ds).value; n.code < n.range
    decreases |ds|
  {
    hide Step;
    if ds != [] {
      InsideReplays(Step(r, ds[0]).value.1, ds[1..]);
    }
  }

  lemma InsideBelow(r: Registers, ds: seq<Decision>)
    requires r.range >= TOP && Inside(r, ds)
    ensures r.code < r.range
  {
  }

  /** A step that keeps the code below the range found it in the part its decision selects. */
  lemma StepInside(r: Registers, d: Decision)
    requires r.range >= TOP && r.code < r.range && Step(r, d).Ok? && Step(r, d).value.0 == d.b
    requires var n := Step(r, d).value.1; n.code < n.range
    ensures var part := Carve(r.range, d);
            && part.offset <= r.code < part.offset + part.width
            && (part.width < TOP ==> r.rest != [])
  {
    if d.Adaptive? {
      BoundInside(r.range, d.p);
      hide Bound;
    }
  }

  /** A step takes the offset of its part from the number. */
  lemma NumberStep(r: Registers, n: Registers, part: Part, k: nat, shifts: nat)
    requires part.offset <= r.code && shifts == k + (if part.width < TOP then 1 else 0)
    requires part.width < TOP ==>
               r.rest != [] && n.rest == r.rest[1..] && n.code == 0x100 * (r.code - part.offset) + r.rest[0] as int
    requires part.width >= TOP ==> n.rest == r.rest && n.code == r.code - part.offset
    requires k <= |n.rest|
    ensures shifts <= |r.rest| && Number(n, k) == Number(r, shifts) - part.offset * Pow256(shifts)
  {
    hide BigEndian, Pow256;
    if part.width < TOP {
      NextByte(r.code - part.offset, r.rest, k);
    }
    assert (r.code - part.offset) * Pow256(shifts) == r.code * Pow256(shifts) - part.offset * Pow256(shifts);
  }

  /** The number in the interval of the tail is the number in the interval of the whole. */
  lemma PresentsBack(r: Registers, ds: seq<Decision>)
    requires r.range >= TOP && r.code < r.range && ds != []
    requires Step(r, ds[0]).Ok? && Step(r, ds[0]).value.0 == ds[0].b
    requires var n := Step(r, ds[0]).value.1; n.code < n.range && Presents(n, ds[1..])
    ensures Presents(r, ds)
  {
    hide Carve, Step, Number, Pow256;
    var part, n := Carve(r.range, ds[0]), Step(r, ds[0]).value.1;
    StepInside(r, ds[0]);
    StepTaken(r, ds[0]);
    NumberStep(r, n, part, Narrow(n.range, ds[1..]).shifts, Narrow(r.range, ds).shifts);
  }

  /** A number replays the decisions, the code below the range throughout, if and only if it is in their interval. */
  lemma {:induction false} PresentsInside(r: Registers, ds: seq<Decision>)
    requires r.range >= TOP && r.code < r.range
    ensures Presents(r, ds) <==> Inside(r, ds)
    decreases |ds|
  {
    hide Step, Carve, BigEndian;
    if ds == [] {
      NumberZero(r);
    } else {
      if Presents(r, ds) {
        PresentsStep(r, ds);
        PresentsBelow(Step(r, ds[0]).value.1, ds[1..]);
        PresentsInside(Step(r, ds[0]).value.1, ds[1..]);
      }
      if Inside(r, ds) {
        var n := Step(r, ds[0]).value.1;
        InsideBelow(n, ds[1..]);
        PresentsInside(n, ds[1..]);
        PresentsBack(r, ds);
      }
    }
  }

  lemma PresentsBelow(r: Registers, ds: seq<Decision>)
    requires r.range >= TOP && Presents(r, ds)
    ensures r.code < r.range
  {
    var i := Narrow(r.range, ds);
    NarrowInside(r.range, ds);
    BigEndianBound(r.rest[..i.shifts]);
    MulBelow(r.code, r.range, Pow256(i.shifts), BigEndian(r.rest[..i.shifts]));
  }

  // ---- whole streams ----

  /** The number a stream starts with, in as many bytes as the decisions take. */
  function Leading(input: seq<byte>, ds: seq<Decision>): nat
    requires |input| >= 5 + Narrow(FULL_RANGE, ds).shifts
  {
    BigEndian(input[1..5 + Narrow(FULL_RANGE, ds).shifts])
  }

  /** The stream begins with a number of the interval. */
  predicate Holds(input: seq<byte>, ds: seq<Decision>) {
    var i := Narrow(FULL_RANGE, ds);
    && |input| >= 5 + i.shifts && input[0] == 0
    && i.low <= Leading(input, ds) < i.low + i.width
  }

  predicate Replayed(input: seq<byte>, ds: seq<Decision>) {
    Start(input).Ok? && Inside(Start(input).value, ds)
  }

  lemma LeadingNumber(input: seq<byte>, ds: seq<Decision>)
    requires |input| >= 5 + Narrow(FULL_RANGE, ds).shifts
    ensures var k := Narrow(FULL_RANGE, ds).shifts;
            Leading(input, ds) == BigEndian(input[1..5]) * Pow256(k) + BigEndian(input[5..][..k])
  {
    hide Narrow, Pow256, BigEndian;
    var k := Narrow(FULL_RANGE, ds).shifts;
    var body := input[1..5 + k];
    BigEndianSplit(body, 4);
    assert body[..4] == input[1..5] && body[4..] == input[5..][..k];
  }

  /** The streams that replay the decisions with the code below the range are those of the interval, and no other. */
  lemma StreamsOf(input: seq<byte>, ds: seq<Decision>)
    ensures Replayed(input, ds) <==> Holds(input, ds)
    ensures Holds(input, ds) ==>
              && Replay(Start(input).value, ds).Some?
              && var i, end := Narrow(FULL_RANGE, ds), Replay(Start(input).value, ds).value;
                 && end.range == i.width && end.rest == input[5 + i.shifts..]
                 && end.code == Leading(input, ds) - i.low
  {
    hide Narrow, Inside, Replay, Pow256, BigEndian;
    var i := Narrow(FULL_RANGE, ds);
    if |input| >= 5 + i.shifts {
      LeadingNumber(input, ds);
      NarrowInside(FULL_RANGE, ds);
      BigEndianBound(input[5..][..i.shifts]);
      if Holds(input, ds) {
        MulBelow(BigEndian(input[1..5]), FULL_RANGE, Pow256(i.shifts), BigEndian(input[5..][..i.shifts]));
      }
    }
    if Start(input).Ok? {
      var r := Start(input).value;
      PresentsInside(r, ds);
      if Presents(r, ds) {
        ReplayInverts(r, ds);
      }
    }
  }

  lemma {:induction false} ToBytesInverse(s: seq<byte>)
    ensures ToBytes(BigEndian(s), |s|) == s
  {
    if s != [] {
      var init := s[..|s| - 1];
      assert s == init + [s[|s| - 1]];
      BigEndianAppend(init, s[|s| - 1]);
      ToBytesInverse(init);
    }
  }

  /** A stream whose last byte and code are used up by the decisions is the one the coder writes for them. */
  lemma CodeUnique(input: seq<byte>, ds: seq<Decision>)
    ensures input == CodeBytes(ds) <==>
              && Replayed(input, ds) && Replay(Start(input).value, ds).Some?
              && Replay(Start(input).value, ds).value.code == 0
              && Replay(Start(input).value, ds).value.rest == []
  {
    hide Inside, Replay, BigEndian, ToBytes, Narrow;
    StreamsOf(input, ds);
    var i := Narrow(FULL_RANGE, ds);
    if input == CodeBytes(ds) {
      CodePresented(ds);
    }
    if Holds(input, ds) && |input| == 5 + i.shifts && Leading(input, ds) == i.low {
      ToBytesInverse(input[1..]);
      assert input[1..5 + i.shifts] == input[1..];
      assert input == [0] + input[1..];
    }
  }

  // ---- the odd unit ----

  /** After the decisions a direct bit takes the code, below the range so far, out of it. */
  predicate Breaks(input: seq<byte>, ds: seq<Decision>) {
    && Replayed(input, ds) && Replay(Start(input).value, ds).Some?
    && var r := Replay(Start(input).value, ds).value;
       && DirectStep(r).Ok?
       && DirectStep(r).value.1.code >= DirectStep(r).value.1.range
  }

  /** Exactly the highest number of an interval of odd width does that. */
  lemma BreaksOnly(input: seq<byte>, ds: seq<Decision>)
    ensures var i := Narrow(FULL_RANGE, ds);
            Breaks(input, ds) <==>
              && i.width % 2 == 1
              && |input| >= 5 + i.shifts + (if i.width / 2 < TOP then 1 else 0)
              && input[0] == 0 && Leading(input, ds) == i.low + i.width - 1
  {
    hide Inside, Replay, BigEndian, Narrow, Start, Leading;
    StreamsOf(input, ds);
    if Holds(input, ds) {
      var r := Replay(Start(input).value, ds).value;
      NeedsByte(Registers(r.range / 2, 0, r.rest));
      HalfStep(r);
      if DirectStep(r).Ok? { DirectKeepsCode(r); }
    }
  }

  lemma HalfStep(r: Registers)
    requires r.range >= TOP
    ensures DirectStep(r).Ok? <==> r.range / 2 >= TOP || r.rest != []
  {
  }

  /** So some stream loses the code at a direct bit if and only if the interval before that bit has odd width. */
  lemma OddUnitLost(ds: seq<Decision>)
    ensures (exists input :: Breaks(input, ds)) <==> Narrow(FULL_RANGE, ds).width % 2 == 1
  {
    hide Breaks, BigEndian, Narrow, ToBytes;
    var i := Narrow(FULL_RANGE, ds);
    if input :| Breaks(input, ds) {
      BreaksOnly(input, ds);
    }
    if i.width % 2 == 1 {
      var v := i.low + i.width - 1;
      NarrowInside(FULL_RANGE, ds);
      WholeRange(i.shifts);
      ToBytesValue(v, 4 + i.shifts);
      var input := [0] + ToBytes(v, 4 + i.shifts) + [0];
      assert input[1..5 + i.shifts] == ToBytes(v, 4 + i.shifts);
      BreaksOnly(input, ds);
    }
  }

  lemma WholeRange(k: nat)
    ensures FULL_RANGE * Pow256(k) <= Pow256(4 + k)
  {
    PowSum(4, k);
    MulAtMost(FULL_RANGE, Pow256(4), Pow256(k));
  }
}
