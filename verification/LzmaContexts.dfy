/** What LZMA codes, without its tables: every choice is a list of bits, each in a named context, and each weighed by
    what its own context has learned so far. */
module LzmaContexts {
  import opened Prelude
  import opened LzmaRange
  import opened LzmaTrees
  import opened LzmaSymbols
  import opened LzmaOperations
  import opened LzmaStream
  import opened LzmaStates
  import opened Learning

  /** The questions asked before a literal, a distance or a length. */
  datatype Question = IsMatch | IsRep | IsRepZero | IsRepZeroLong | IsRepOne | IsRepTwo

  /** What a group of contexts belongs to. Questions depend on the state, two of them also on the position. A literal
      depends on low bits of the position and high bits of the byte before it, and on the bit of the byte it is compared
      with, as long as it agrees with that byte. Lengths of new matches and of repetitions learn apart, and so do the
      slots of distances behind lengths 2, 3, 4 and more. */
  datatype Family =
    | Asked(q: Question, state: nat, ps: nat)
    | Plain(place: nat, high: nat)
    | Beside(place: nat, high: nat, compared: bit)
    | LengthClass(rep: bool)
    | LowLength(rep: bool, ps: nat)
    | MiddleLength(rep: bool, ps: nat)
    | HighLength(rep: bool)
    | Slot(lengthState: nat)
    | Footer(slot: nat)
    | Align

  /** A node of a tree: a leading one and the bits decided before, or a number for single bits. */
  datatype Context = Context(f: Family, node: nat)

  type Events = seq<Event<Context>>

  function In(f: Family, node: nat, b: bit): Event<Context> {
    Event.Coded(Context(f, node), b)
  }

  // ---- the events of the format ----

  /** A number of `left` bits below a node, the most significant bit first. */
  function Path(f: Family, node: nat, left: nat, v: nat): Events
    decreases left
  {
    if left == 0 then []
    else
      var b := NextBit(v, left);
      [In(f, node, b)] + Path(f, 2 * node + b, left - 1, v)
  }

  /** The least significant bit first. */
  function ReversePath(f: Family, node: nat, left: nat, v: nat): Events
    decreases left
  {
    if left == 0 then []
    else [In(f, node, v % 2)] + ReversePath(f, 2 * node + v % 2, left - 1, v / 2)
  }

  function RawBits(left: nat, v: nat): Events {
    if left == 0 then [] else [Raw(NextBit(v, left))] + RawBits(left - 1, v)
  }

  /** A length above its minimum: 8 and 8 that depend on the position, and 256 that do not. */
  function LengthEvents(rep: bool, ps: nat, v: nat): Events {
    if v < 8 then [In(LengthClass(rep), 0, 0)] + Path(LowLength(rep, ps), 1, 3, v)
    else if v < 16 then
      [In(LengthClass(rep), 0, 1)] + ([In(LengthClass(rep), 1, 0)] + Path(MiddleLength(rep, ps), 1, 3, v - 8))
    else [In(LengthClass(rep), 0, 1)] + ([In(LengthClass(rep), 1, 1)] + Path(HighLength(rep), 1, 8, v - 16))
  }

  /** The bits of a distance below its slot: modelled ones, or raw ones above four modelled ones. */
  function FooterEvents(slot: nat, footer: nat): Events {
    if slot < 4 then []
    else if slot < 14 then ReversePath(Footer(slot), 1, slot / 2 - 1, footer)
    else RawBits(slot / 2 - 5, footer / 16) + ReversePath(Align, 1, 4, footer % 16)
  }

  function DistanceEvents(length: nat, d: u32): Events {
    var slot := SlotOf(d);
    Path(Slot(Min(length, 3)), 1, 6, slot) + FooterEvents(slot, if slot < 4 then 0 else d - Base(slot))
  }

  /** A literal beside another byte: once they differ, the rest of it is plain. */
  function BesideEvents(place: nat, high: nat, node: nat, left: nat, compared: nat, v: nat): Events
    requires left > 0
    decreases left
  {
    var b, other := NextBit(v, left), NextBit(compared, left);
    [In(Beside(place, high, other), node, b)] +
    if other == b && left > 1 then BesideEvents(place, high, 2 * node + b, left - 1, compared, v)
    else Path(Plain(place, high), 2 * node + b, left - 1, v)
  }

  /** Behind a copy a literal is compared with the byte that would have come next. */
  function LiteralEvents(place: nat, high: nat, state: nat, compared: byte, v: byte): Events {
    if state >= 7 then BesideEvents(place, high, 1, 8, compared, v) else Path(Plain(place, high), 1, 8, v)
  }

  function LaterEvents(state: nat, ps: nat, which: nat, extra: nat): Events
    requires which >= 1
  {
    if which == 1 then [In(Asked(IsRepOne, state, 0), 0, 0)] + LengthEvents(true, ps, extra)
    else
      [In(Asked(IsRepOne, state, 0), 0, 1)] +
      ([In(Asked(IsRepTwo, state, 0), 0, if which == 2 then 0 else 1)] + LengthEvents(true, ps, extra))
  }

  function RepetitionEvents(state: nat, ps: nat, c: Choice): Events
    requires c.Short? || c.Again?
  {
    if c.Short? then [In(Asked(IsRepZero, state, 0), 0, 0)] + [In(Asked(IsRepZeroLong, state, ps), 0, 0)]
    else if c.which == 0 then
      [In(Asked(IsRepZero, state, 0), 0, 0)] +
      ([In(Asked(IsRepZeroLong, state, ps), 0, 1)] + LengthEvents(true, ps, c.extra))
    else [In(Asked(IsRepZero, state, 0), 0, 1)] + LaterEvents(state, ps, c.which, c.extra)
  }

  function MatchEvents(state: nat, ps: nat, c: Choice): Events
    requires !c.Lit?
  {
    if c.New? then
      [In(Asked(IsRep, state, 0), 0, 0)] + (LengthEvents(false, ps, c.extra) + DistanceEvents(c.extra, c.offset))
    else [In(Asked(IsRep, state, 0), 0, 1)] + RepetitionEvents(state, ps, c)
  }

  function LowBits(x: nat, n: nat): nat {
    hide Pow2;
    x % Pow2(n)
  }

  function HighBits(b: byte, n: nat): nat
    requires n <= 8
  {
    hide Pow2;
    var v: nat := b;
    v / Pow2(8 - n)
  }

  /** One choice behind an output, when the remembered distances are `reps`. */
  function ChoiceEvents(lc: nat, lp: nat, pb: nat, state: nat, reps: seq<u32>, out: seq<byte>, c: Choice): Events
    requires lc <= 8 && |reps| == 4
  {
    var ps := LowBits(|out|, pb);
    if c.Lit? then
      [In(Asked(IsMatch, state, ps), 0, 0)] +
      LiteralEvents(LowBits(|out|, lp), HighBits(Previous(out), lc), state, MatchByte(out, reps[0]), c.b)
    else [In(Asked(IsMatch, state, ps), 0, 1)] + MatchEvents(state, ps, c)
  }

  // ---- tables hold what has been learned ----

  ghost predicate Row(t: seq<Prob>, past: Events, f: Family) {
    forall n | 0 <= n < |t| :: t[n] == Learned(past, Context(f, n))
  }

  lemma RowNext(t: seq<Prob>, past: Events, f: Family, node: nat, b: bit)
    requires Row(t, past, f) && node < |t|
    ensures t[node] == Learned(past, Context(f, node))
    ensures Row(t[node := Adapt(t[node], b)], past + [In(f, node, b)], f)
  {
    hide Adapt, Learned;
    forall n | 0 <= n < |t|
      ensures t[node := Adapt(t[node], b)][n] == Learned(past + [In(f, node, b)], Context(f, n))
    {
      LearnedNext(past, In(f, node, b), Context(f, n));
    }
  }

  /** One event weighed, then the others. */
  lemma WeighedFirst(past: Events, e: Event<Context>, rest: Events)
    ensures Weighed(past, [e] + rest) ==
            [if e.Coded? then Adaptive(Learned(past, e.c), e.b) else Direct(e.b)] + Weighed(past + [e], rest)
    ensures past + [e] + rest == past + ([e] + rest)
  {
    assert ([e] + rest)[1..] == rest;
  }

  lemma BitOfTop(v: nat, left: nat)
    requires left > 0 && v < Pow2(left)
    ensures NextBit(v, left) == if v >= Pow2(left - 1) then 1 else 0
  {
    var p := Pow2(left - 1);
    if v < p { DivModIs(v, p, 0, v); } else { DivModIs(v, p, 1, v - p); }
  }

  /** The bits below do not see a higher one. */
  lemma {:induction false} PathLow(f: Family, node: nat, left: nat, v: nat, high: nat)
    ensures Path(f, node, left, v + high * Pow2(left)) == Path(f, node, left, v)
    decreases left
  {
    if left > 0 {
      var p := Pow2(left - 1);
      assert v + high * (2 * p) == v + (2 * high) * p;
      LowBitStays(v, 2 * high, p);
      PathLow(f, 2 * node + NextBit(v, left), left - 1, v, 2 * high);
    }
  }

  lemma Distributes(a: nat, b: nat, p: nat)
    ensures (a + b) * p == a * p + b * p
  {
  }

  lemma LowBitStays(v: nat, high: nat, p: nat)
    requires p >= 1 && high % 2 == 0
    ensures (v + high * p) / p % 2 == v / p % 2
  {
    var q, r := v / p, v % p;
    assert v == q * p + r;
    Distributes(q, high, p);
    DivModIs(v + high * p, p, q + high, r);
    DivModIs(q + high, 2, high / 2 + q / 2, q % 2);
  }

  lemma EncodeUnfolds(t: Tree, node: nat, left: nat, v: nat) returns (rest: nat)
    requires Fits(|t|, node, left) && v < Pow2(left) && left > 0 && node < |t|
    requires Fits(|t|, 2 * node, left - 1) && Fits(|t|, 2 * node + 1, left - 1)
    ensures var b := NextBit(v, left);
            && rest < Pow2(left - 1) && v == rest + b * Pow2(left - 1)
            && var tail := EncodeFrom(t[node := Adapt(t[node], b)], 2 * node + b, left - 1, rest);
               EncodeFrom(t, node, left, v) == Coded.Coded([Adaptive(t[node], b)] + tail.ds, tail.tree)
  {
    hide Adapt, Fits;
    BitOfTop(v, left);
    rest := v - Weight(NextBit(v, left), Pow2(left - 1));
  }

  lemma PathUnfolds(f: Family, node: nat, left: nat, v: nat, rest: nat, b: bit)
    requires left > 0 && b == NextBit(v, left) && v == rest + b * Pow2(left - 1)
    ensures Path(f, node, left, v) == [In(f, node, b)] + Path(f, 2 * node + b, left - 1, rest)
  {
    PathLow(f, 2 * node + b, left - 1, rest, b);
    hide Pow2, NextBit;
  }

  lemma PathDone(t: Tree, f: Family, node: nat, past: Events)
    requires Fits(|t|, node, 0)
    ensures EncodeFrom(t, node, 0, 0) == Coded.Coded([], t) && Weighed(past, Path(f, node, 0, 0)) == []
    ensures past + Path(f, node, 0, 0) == past
  {
  }

  /** A tree codes the path of its value, and learns it. */
  lemma {:induction false} PathLearns(t: Tree, f: Family, node: nat, left: nat, v: nat, past: Events)
    requires Fits(|t|, node, left) && v < Pow2(left) && Row(t, past, f)
    ensures var c, es := EncodeFrom(t, node, left, v), Path(f, node, left, v);
            c.ds == Weighed(past, es) && Row(c.tree, past + es, f)
    decreases left
  {
    hide Adapt, Row, Fits, Learned, EncodeFrom, Weighed, Path;
    if left == 0 {
      PathDone(t, f, node, past);
    } else {
      FitsStep(|t|, node, left);
      var b: bit := NextBit(v, left);
      var rest := EncodeUnfolds(t, node, left, v);
      hide NextBit, Pow2;
      PathUnfolds(f, node, left, v, rest, b);
      RowNext(t, past, f, node, b);
      PathLearns(t[node := Adapt(t[node], b)], f, 2 * node + b, left - 1, rest, past + [In(f, node, b)]);
      WeighedFirst(past, In(f, node, b), Path(f, 2 * node + b, left - 1, rest));
    }
  }

  lemma {:induction false} ReverseLearns(t: Tree, f: Family, node: nat, left: nat, v: nat, past: Events)
    requires Fits(|t|, node, left) && v < Pow2(left) && Row(t, past, f)
    ensures var c, es := EncodeReverseFrom(t, node, left, v), ReversePath(f, node, left, v);
            c.ds == Weighed(past, es) && Row(c.tree, past + es, f)
    decreases left
  {
    hide Adapt, Row, Fits, Learned;
    if left == 0 {
      assert past + [] == past;
    } else {
      FitsStep(|t|, node, left);
      var b: bit := v % 2;
      RowNext(t, past, f, node, b);
      ReverseLearns(t[node := Adapt(t[node], b)], f, 2 * node + b, left - 1, v / 2, past + [In(f, node, b)]);
      WeighedFirst(past, In(f, node, b), ReversePath(f, 2 * node + b, left - 1, v / 2));
    }
  }

  lemma {:induction false} RawLow(left: nat, v: nat, high: nat)
    ensures RawBits(left, v + high * Pow2(left)) == RawBits(left, v)
    decreases left
  {
    if left > 0 {
      var p := Pow2(left - 1);
      assert v + high * (2 * p) == v + (2 * high) * p;
      LowBitStays(v, 2 * high, p);
      RawLow(left - 1, v, 2 * high);
    }
  }

  lemma {:induction false} RawLearns(left: nat, v: nat, past: Events)
    requires v < Pow2(left)
    ensures EncodeDirectBits(left, v) == Weighed(past, RawBits(left, v))
    decreases left
  {
    if left > 0 {
      BitOfTop(v, left);
      var b := NextBit(v, left);
      var rest := v - Weight(b, Pow2(left - 1));
      RawLearns(left - 1, rest, past + [Raw(b)]);
      RawLow(left - 1, rest, b);
      WeighedFirst(past, Raw(b), RawBits(left - 1, v));
    }
  }

  // ---- what a piece of code does not touch ----

  /** All contexts of these events are in some families. */
  ghost predicate Within(es: Events, s: iset<Family>) {
    forall k | 0 <= k < |es| && es[k].Coded? :: es[k].c.f in s
  }

  /** Other contexts learn nothing from them. */
  lemma {:induction false} Elsewhere(past: Events, es: Events, s: iset<Family>)
    requires Within(es, s)
    ensures forall c: Context | c.f !in s :: Learned(past + es, c) == Learned(past, c)
    decreases |es|
  {
    hide Adapt;
    if es == [] {
      assert past + es == past;
    } else {
      var init, last := es[..|es| - 1], es[|es| - 1];
      Elsewhere(past, init, s);
      assert past + es == past + init + [last];
      forall c: Context | c.f !in s
        ensures Learned(past + es, c) == Learned(past, c)
      {
        LearnedNext(past + init, last, c);
      }
    }
  }

  lemma RowStays(t: seq<Prob>, past: Events, es: Events, f: Family, s: iset<Family>)
    requires Row(t, past, f) && Within(es, s) && f !in s
    ensures Row(t, past + es, f)
  {
    hide Learned;
    Elsewhere(past, es, s);
  }

  lemma {:induction false} PathWithin(f: Family, node: nat, left: nat, v: nat)
    ensures Within(Path(f, node, left, v), iset{f})
    decreases left
  {
    if left > 0 { PathWithin(f, 2 * node + NextBit(v, left), left - 1, v); }
  }

  lemma {:induction false} ReverseWithin(f: Family, node: nat, left: nat, v: nat)
    ensures Within(ReversePath(f, node, left, v), iset{f})
    decreases left
  {
    if left > 0 { ReverseWithin(f, 2 * node + v % 2, left - 1, v / 2); }
  }

  lemma {:induction false} RawWithin(left: nat, v: nat)
    ensures Within(RawBits(left, v), iset{})
  {
    if left > 0 { RawWithin(left - 1, v); }
  }

  lemma WithinMore(a: Events, b: Events, s: iset<Family>, t: iset<Family>, u: iset<Family>)
    requires Within(a, s) && Within(b, t) && s <= u && t <= u
    ensures Within(a + b, u)
  {
  }

  // ---- lengths ----

  ghost predicate LengthsLearn(m: Lengths, past: Events, rep: bool)
    requires LengthsOk(m)
  {
    && m.choice0 == Learned(past, Context(LengthClass(rep), 0))
    && m.choice1 == Learned(past, Context(LengthClass(rep), 1))
    && (forall ps | 0 <= ps < POSITION_STATES :: Row(m.low[ps], past, LowLength(rep, ps)))
    && (forall ps | 0 <= ps < POSITION_STATES :: Row(m.middle[ps], past, MiddleLength(rep, ps)))
    && Row(m.high, past, HighLength(rep))
  }

  /** Events in one family leave what the others have learned. */
  lemma LengthsStay(m: Lengths, past: Events, es: Events, rep: bool, f: Family)
    requires LengthsOk(m) && LengthsLearn(m, past, rep) && Within(es, iset{f})
    ensures f != LengthClass(rep) ==>
              && m.choice0 == Learned(past + es, Context(LengthClass(rep), 0))
              && m.choice1 == Learned(past + es, Context(LengthClass(rep), 1))
    ensures forall ps | 0 <= ps < POSITION_STATES && f != LowLength(rep, ps) ::
              Row(m.low[ps], past + es, LowLength(rep, ps))
    ensures forall ps | 0 <= ps < POSITION_STATES && f != MiddleLength(rep, ps) ::
              Row(m.middle[ps], past + es, MiddleLength(rep, ps))
    ensures f != HighLength(rep) ==> Row(m.high, past + es, HighLength(rep))
  {
    hide Learned, Within, LengthsOk;
    Elsewhere(past, es, iset{f});
  }

  /** The class bits of a length. */
  lemma ClassLearns(m: Lengths, past: Events, rep: bool, node: nat, b: bit)
    requires LengthsOk(m) && LengthsLearn(m, past, rep) && node < 2
    ensures var m' := if node == 0 then m.(choice0 := Adapt(m.choice0, b)) else m.(choice1 := Adapt(m.choice1, b));
            LengthsLearn(m', past + [In(LengthClass(rep), node, b)], rep)
  {
    hide Learned, Adapt, Row;
    var e := In(LengthClass(rep), node, b);
    LengthsStay(m, past, [e], rep, LengthClass(rep));
    LearnedNext(past, e, Context(LengthClass(rep), 0));
    LearnedNext(past, e, Context(LengthClass(rep), 1));
  }

  lemma LowLearns(m: Lengths, past: Events, rep: bool, ps: nat, v: nat)
    requires LengthsOk(m) && LengthsLearn(m, past, rep) && ps < POSITION_STATES && v < 8
    ensures var c, es := TreeCode(m.low[ps], 3, v), Path(LowLength(rep, ps), 1, 3, v);
            c.ds == Weighed(past, es) && LengthsLearn(m.(low := m.low[ps := c.tree]), past + es, rep)
  {
    hide Learned, Row, Path, Weighed, EncodeFrom, Fits, Within, Adapt;
    EightBits();
    FitsRoot(3);
    hide Pow2;
    PathLearns(m.low[ps], LowLength(rep, ps), 1, 3, v, past);
    PathWithin(LowLength(rep, ps), 1, 3, v);
    LengthsStay(m, past, Path(LowLength(rep, ps), 1, 3, v), rep, LowLength(rep, ps));
  }

  lemma MiddleLearns(m: Lengths, past: Events, rep: bool, ps: nat, v: nat)
    requires LengthsOk(m) && LengthsLearn(m, past, rep) && ps < POSITION_STATES && v < 8
    ensures var c, es := TreeCode(m.middle[ps], 3, v), Path(MiddleLength(rep, ps), 1, 3, v);
            c.ds == Weighed(past, es) && LengthsLearn(m.(middle := m.middle[ps := c.tree]), past + es, rep)
  {
    hide Learned, Row, Path, Weighed, EncodeFrom, Fits, Within, Adapt;
    EightBits();
    FitsRoot(3);
    hide Pow2;
    PathLearns(m.middle[ps], MiddleLength(rep, ps), 1, 3, v, past);
    PathWithin(MiddleLength(rep, ps), 1, 3, v);
    LengthsStay(m, past, Path(MiddleLength(rep, ps), 1, 3, v), rep, MiddleLength(rep, ps));
  }

  lemma HighLearns(m: Lengths, past: Events, rep: bool, v: nat)
    requires LengthsOk(m) && LengthsLearn(m, past, rep) && v < 256
    ensures var c, es := TreeCode(m.high, 8, v), Path(HighLength(rep), 1, 8, v);
            c.ds == Weighed(past, es) && LengthsLearn(m.(high := c.tree), past + es, rep)
  {
    hide Learned, Row, Path, Weighed, EncodeFrom, Fits, Within, Adapt;
    EightBits();
    FitsRoot(8);
    hide Pow2;
    PathLearns(m.high, HighLength(rep), 1, 8, v, past);
    PathWithin(HighLength(rep), 1, 8, v);
    LengthsStay(m, past, Path(HighLength(rep), 1, 8, v), rep, HighLength(rep));
  }

  lemma EightBits()
    ensures Pow2(3) == 8 && Pow2(8) == 256
  {
  }

  lemma LengthLearns(m: Lengths, past: Events, rep: bool, ps: nat, v: nat)
    requires LengthsOk(m) && LengthsLearn(m, past, rep) && ps < POSITION_STATES && v < 272
    ensures var c, es := EncodeLength(m, ps, v), LengthEvents(rep, ps, v);
            c.ds == Weighed(past, es) && LengthsLearn(c.m, past + es, rep)
  {
    EightBits();
    hide Learned, Row, Path, TreeCode, Adapt, Weighed, LengthsLearn, LengthsOk;
    var f := LengthClass(rep);
    if v < 8 {
      var rest := Path(LowLength(rep, ps), 1, 3, v);
      ClassStep(m, past, rep, 0, 0, rest);
      LowLearns(m.(choice0 := Adapt(m.choice0, 0)), past + [In(f, 0, 0)], rep, ps, v);
    } else {
      var m0, past0 := m.(choice0 := Adapt(m.choice0, 1)), past + [In(f, 0, 1)];
      if v < 16 {
        var rest := Path(MiddleLength(rep, ps), 1, 3, v - 8);
        ClassStep(m, past, rep, 0, 1, [In(f, 1, 0)] + rest);
        ClassStep(m0, past0, rep, 1, 0, rest);
        MiddleLearns(m0.(choice1 := Adapt(m.choice1, 0)), past0 + [In(f, 1, 0)], rep, ps, v - 8);
      } else {
        var rest := Path(HighLength(rep), 1, 8, v - 16);
        ClassStep(m, past, rep, 0, 1, [In(f, 1, 1)] + rest);
        ClassStep(m0, past0, rep, 1, 1, rest);
        HighLearns(m0.(choice1 := Adapt(m.choice1, 1)), past0 + [In(f, 1, 1)], rep, v - 16);
      }
    }
  }

  lemma ClassStep(m: Lengths, past: Events, rep: bool, node: nat, b: bit, rest: Events)
    requires LengthsOk(m) && LengthsLearn(m, past, rep) && node < 2
    ensures var m' := if node == 0 then m.(choice0 := Adapt(m.choice0, b)) else m.(choice1 := Adapt(m.choice1, b));
            LengthsOk(m') && LengthsLearn(m', past + [In(LengthClass(rep), node, b)], rep)
    ensures var e, p := In(LengthClass(rep), node, b), if node == 0 then m.choice0 else m.choice1;
            && Weighed(past, [e] + rest) == [Adaptive(p, b)] + Weighed(past + [e], rest)
            && past + [e] + rest == past + ([e] + rest)
  {
    hide Learned, Row, Weighed, Adapt;
    ClassLearns(m, past, rep, node, b);
    WeighedFirst(past, In(LengthClass(rep), node, b), rest);
  }

  // ---- distances ----

  ghost predicate DistancesLearn(m: Distances, past: Events)
    requires DistancesOk(m)
  {
    && (forall i | 0 <= i < LENGTH_STATES :: Row(m.slots[i], past, Slot(i)))
    && (forall k | 0 <= k < END_MODEL - START_MODEL :: Row(m.models[k], past, Footer(k + START_MODEL)))
    && Row(m.align, past, Align)
  }

  lemma DistancesStay(m: Distances, past: Events, es: Events, s: iset<Family>)
    requires DistancesOk(m) && DistancesLearn(m, past) && Within(es, s)
    ensures forall i | 0 <= i < LENGTH_STATES && Slot(i) !in s :: Row(m.slots[i], past + es, Slot(i))
    ensures forall k | 0 <= k < END_MODEL - START_MODEL && Footer(k + START_MODEL) !in s ::
              Row(m.models[k], past + es, Footer(k + START_MODEL))
    ensures Align !in s ==> Row(m.align, past + es, Align)
  {
    hide Learned, Within, DistancesOk;
    Elsewhere(past, es, s);
  }

  lemma SlotLearns(m: Distances, past: Events, i: nat, slot: nat)
    requires DistancesOk(m) && DistancesLearn(m, past) && i < LENGTH_STATES && slot < 64
    ensures Pow2(6) == 64
    ensures var c, es := TreeCode(m.slots[i], 6, slot), Path(Slot(i), 1, 6, slot);
            c.ds == Weighed(past, es) && DistancesLearn(m.(slots := m.slots[i := c.tree]), past + es)
  {
    hide Learned, Row, Path, Weighed, EncodeFrom, Fits, Within, FooterBits;
    SixBits();
    FitsRoot(6);
    hide Pow2;
    PathLearns(m.slots[i], Slot(i), 1, 6, slot, past);
    PathWithin(Slot(i), 1, 6, slot);
    DistancesStay(m, past, Path(Slot(i), 1, 6, slot), iset{Slot(i)});
  }

  lemma ModelLearns(m: Distances, past: Events, slot: nat, footer: nat)
    requires DistancesOk(m) && DistancesLearn(m, past) && START_MODEL <= slot < END_MODEL
    requires footer < Pow2(FooterBits(slot))
    ensures var c, es := EncodeFooter(m, slot, footer), FooterEvents(slot, footer);
            c.ds == Weighed(past, es) && DistancesLearn(c.m, past + es)
  {
    hide Learned, Row, ReversePath, Weighed, EncodeReverseFrom, Fits, Within, Pow2;
    var bits, k := FooterBits(slot), slot - START_MODEL;
    FitsRoot(bits);
    ReverseLearns(m.models[k], Footer(slot), 1, bits, footer, past);
    ReverseWithin(Footer(slot), 1, bits, footer);
    DistancesStay(m, past, ReversePath(Footer(slot), 1, bits, footer), iset{Footer(slot)});
  }

  lemma AlignLearns(m: Distances, past: Events, slot: nat, footer: nat)
    requires DistancesOk(m) && DistancesLearn(m, past) && END_MODEL <= slot < 64 && footer < Pow2(FooterBits(slot))
    ensures var c, es := EncodeFooter(m, slot, footer), FooterEvents(slot, footer);
            c.ds == Weighed(past, es) && DistancesLearn(c.m, past + es)
  {
    hide Learned, Row, ReversePath, Weighed, EncodeReverseFrom, Fits, Within, Pow2, EncodeDirectBits, RawBits;
    var bits := FooterBits(slot);
    FooterSplit(bits, footer);
    FitsRoot(ALIGN_BITS);
    var raw, low := RawBits(bits - 4, footer / 16), ReversePath(Align, 1, 4, footer % 16);
    RawLearns(bits - 4, footer / 16, past);
    RawWithin(bits - 4, footer / 16);
    RowStays(m.align, past, raw, Align, iset{});
    ReverseLearns(m.align, Align, 1, 4, footer % 16, past + raw);
    ReverseWithin(Align, 1, 4, footer % 16);
    WithinMore(raw, low, iset{}, iset{Align}, iset{Align});
    DistancesStay(m, past, raw + low, iset{Align});
    WeighedAppend(past, raw, low);
    assert past + raw + low == past + (raw + low);
  }

  lemma DistanceLearns(m: Distances, past: Events, length: nat, d: u32)
    requires DistancesOk(m) && DistancesLearn(m, past)
    ensures var c, es := EncodeDistance(m, length, d), DistanceEvents(length, d);
            c.ds == Weighed(past, es) && DistancesLearn(c.m, past + es)
  {
    hide Learned, Row, Path, Weighed, TreeCode, EncodeFooter, FooterEvents, DistancesLearn, Pow2, Base;
    var ls, slot := Min(length, LENGTH_STATES - 1), SlotOf(d);
    hide SlotOf;
    SlotLearns(m, past, ls, slot);
    var t, first := TreeCode(m.slots[ls], 6, slot), Path(Slot(ls), 1, 6, slot);
    var m0 := m.(slots := m.slots[ls := t.tree]);
    var footer := if slot < 4 then 0 else d - Base(slot);
    var rest := FooterEvents(slot, footer);
    SlotKept(m, ls, t.tree);
    WeighedAppend(past, first, rest);
    assert past + first + rest == past + (first + rest);
    if slot < 4 {
      NoFooter(slot, footer);
      NothingWeighed(past + first);
      assert t.ds + [] == t.ds && first + [] == first;
    } else if slot < END_MODEL {
      ModelLearns(m0, past + first, slot, footer);
    } else {
      AlignLearns(m0, past + first, slot, footer);
    }
  }

  lemma NoFooter(slot: nat, footer: nat)
    ensures slot < 4 ==> FooterEvents(slot, footer) == []
  {
  }

  lemma NothingWeighed(past: Events)
    ensures Weighed(past, []) == []
  {
  }

  lemma SlotKept(m: Distances, ls: nat, t: Tree)
    requires DistancesOk(m) && ls < LENGTH_STATES && |t| == Pow2(6)
    ensures DistancesOk(m.(slots := m.slots[ls := t]))
  {
  }

  /** The slot of a distance is its number of binary digits and the digit behind the first. */
  lemma SlotDigits(n: nat, second: bit, rest: nat)
    requires 2 <= n < 32 && rest < Pow2(n - 1)
    ensures var d := Pow2(n) + second * Pow2(n - 1) + rest;
            && 4 <= d < 0x1_0000_0000 && SlotOf(d) == 2 * n + second && d - Base(SlotOf(d)) == rest
  {
    var slot: nat := 2 * n + second;
    var p := Pow2(n - 1);
    assert FooterBits(slot) == n - 1 && slot % 2 == second;
    assert (2 + second) * p == 2 * p + second * p;
    SlotUnique(Base(slot) + rest, slot, rest);
  }

  // ---- literals ----

  /** The three tables of a block: plain bits, and bits beside a clear and a set one. */
  ghost predicate Block(probs: seq<Prob>, base: nat, past: Events, place: nat, high: nat) {
    && base + 0x300 <= |probs|
    && Row(probs[base..base + 0x100], past, Plain(place, high))
    && Row(probs[base + 0x100..base + 0x200], past, Beside(place, high, 0))
    && Row(probs[base + 0x200..base + 0x300], past, Beside(place, high, 1))
  }

  function BlockFamilies(place: nat, high: nat): iset<Family> {
    iset{Plain(place, high), Beside(place, high, 0), Beside(place, high, 1)}
  }

  predicate SameOutside(t: seq<Prob>, s: seq<Prob>, base: nat) {
    |t| == |s| && forall k | 0 <= k < |s| && !(base <= k < base + 0x300) :: t[k] == s[k]
  }

  /** A plain bit. */
  lemma PlainNext(probs: seq<Prob>, base: nat, past: Events, place: nat, high: nat, node: nat, b: bit)
    requires Block(probs, base, past, place, high) && node < 0x100
    ensures probs[base + node] == Learned(past, Context(Plain(place, high), node))
    ensures var t := probs[base + node := Adapt(probs[base + node], b)];
            Block(t, base, past + [In(Plain(place, high), node, b)], place, high) && SameOutside(t, probs, base)
  {
    hide Adapt, Learned, Row;
    var f, i := Plain(place, high), base + node;
    var t := probs[i := Adapt(probs[i], b)];
    RowNext(probs[base..base + 0x100], past, f, node, b);
    assert t[base..base + 0x100] == probs[base..base + 0x100][node := Adapt(probs[i], b)];
    RowAt(probs[base..base + 0x100], past, f, node);
    forall c: bit
      ensures Row(t[base + 0x100 * (1 + c)..base + 0x100 * (2 + c)], past + [In(f, node, b)], Beside(place, high, c))
    {
      var from, to := base + 0x100 * (1 + c), base + 0x100 * (2 + c);
      assert t[from..to] == probs[from..to];
      assert Row(probs[from..to], past, Beside(place, high, c)) by { if c == 0 {} else {} }
      RowStays(probs[from..to], past, [In(f, node, b)], Beside(place, high, c), iset{f});
    }
    assert t[base + 0x100 * (1 + 0)..base + 0x100 * (2 + 0)] == t[base + 0x100..base + 0x200];
    assert t[base + 0x100 * (1 + 1)..base + 0x100 * (2 + 1)] == t[base + 0x200..base + 0x300];
  }

  lemma RowAt(t: seq<Prob>, past: Events, f: Family, node: nat)
    requires Row(t, past, f) && node < |t|
    ensures t[node] == Learned(past, Context(f, node))
  {
  }

  /** A bit beside the bit `other`. */
  lemma BesideNext(probs: seq<Prob>, base: nat, past: Events, place: nat, high: nat, node: nat, other: bit, b: bit)
    requires Block(probs, base, past, place, high) && node < 0x100
    ensures probs[base + 0x100 * (1 + other) + node] == Learned(past, Context(Beside(place, high, other), node))
    ensures var i := base + 0x100 * (1 + other) + node;
            var t := probs[i := Adapt(probs[i], b)];
            && Block(t, base, past + [In(Beside(place, high, other), node, b)], place, high)
            && SameOutside(t, probs, base)
  {
    hide Adapt, Learned, Row;
    var f, from, i := Beside(place, high, other), base + 0x100 * (1 + other), base + 0x100 * (1 + other) + node;
    var t, e := probs[i := Adapt(probs[i], b)], In(f, node, b);
    assert Row(probs[from..from + 0x100], past, f) by { if other == 0 {} else {} }
    RowNext(probs[from..from + 0x100], past, f, node, b);
    RowAt(probs[from..from + 0x100], past, f, node);
    assert t[from..from + 0x100] == probs[from..from + 0x100][node := Adapt(probs[i], b)];
    assert t[base..base + 0x100] == probs[base..base + 0x100];
    RowStays(probs[base..base + 0x100], past, [e], Plain(place, high), iset{f});
    var c: bit := 1 - other;
    var at := base + 0x100 * (1 + c);
    assert t[at..at + 0x100] == probs[at..at + 0x100];
    assert Row(probs[at..at + 0x100], past, Beside(place, high, c)) by { if c == 0 {} else {} }
    RowStays(probs[at..at + 0x100], past, [e], Beside(place, high, c), iset{f});
    if other == 0 {} else {}
  }

  lemma PlainUnfolds(probs: seq<Prob>, base: nat, f: Family, symbol: nat, left: nat, v: byte)
    requires base + 0x300 <= |probs| && Symbol(symbol, left) && left > 0
    ensures var b := NextBit(v, left);
            && symbol < 0x100 && Symbol(2 * symbol + b, left - 1)
            && Path(f, symbol, left, v) == [In(f, symbol, b)] + Path(f, 2 * symbol + b, left - 1, v)
            && var t := probs[base + symbol := Adapt(probs[base + symbol], b)];
               var c := EncodePlain(t, base, 2 * symbol + b, left - 1, v);
               EncodePlain(probs, base, symbol, left, v)
               == LiteralCode([Adaptive(probs[base + symbol], b)] + c.ds, c.probs)
  {
    SymbolStep(symbol, left, NextBit(v, left));
    hide Adapt, Symbol, NextBit, Pow2;
  }

  /** What a piece of a literal codes and learns. */
  ghost predicate LiteralPiece(c: LiteralCode, probs: seq<Prob>, base: nat, past: Events, es: Events, place: nat,
                               high: nat)
  {
    && c.ds == Weighed(past, es) && Block(c.probs, base, past + es, place, high)
    && SameOutside(c.probs, probs, base) && Within(es, BlockFamilies(place, high))
  }

  lemma PlainDone(probs: seq<Prob>, base: nat, past: Events, place: nat, high: nat, symbol: nat, v: byte)
    requires base + 0x300 <= |probs| && Block(probs, base, past, place, high) && Symbol(symbol, 0)
    ensures LiteralPiece(EncodePlain(probs, base, symbol, 0, v), probs, base, past,
                         Path(Plain(place, high), symbol, 0, v), place, high)
  {
    hide Block;
    assert past + [] == past;
  }

  lemma {:induction false} PlainLearns(probs: seq<Prob>, base: nat, past: Events, place: nat, high: nat, symbol: nat,
                                       left: nat, v: byte)
    requires base + 0x300 <= |probs| && Block(probs, base, past, place, high) && Symbol(symbol, left)
    ensures LiteralPiece(EncodePlain(probs, base, symbol, left, v), probs, base, past,
                         Path(Plain(place, high), symbol, left, v), place, high)
    decreases left
  {
    hide Adapt, Block, Learned, Symbol, Pow2, Path, EncodePlain, LiteralPiece;
    if left == 0 {
      PlainDone(probs, base, past, place, high, symbol, v);
    } else {
      var b: bit, f := NextBit(v, left), Plain(place, high);
      PlainUnfolds(probs, base, f, symbol, left, v);
      hide NextBit;
      PlainNext(probs, base, past, place, high, symbol, b);
      var t := probs[base + symbol := Adapt(probs[base + symbol], b)];
      PlainLearns(t, base, past + [In(f, symbol, b)], place, high, 2 * symbol + b, left - 1, v);
      PlainStep(probs, base, past, place, high, symbol, b, EncodePlain(t, base, 2 * symbol + b, left - 1, v),
                Path(f, 2 * symbol + b, left - 1, v));
    }
  }

  /** One plain bit of a literal, and its rest. */
  lemma PlainStep(probs: seq<Prob>, base: nat, past: Events, place: nat, high: nat, symbol: nat, b: bit, c: LiteralCode,
                  rest: Events)
    requires Block(probs, base, past, place, high) && symbol < 0x100 && base + 0x300 <= |probs|
    requires LiteralPiece(c, probs[base + symbol := Adapt(probs[base + symbol], b)], base,
                          past + [In(Plain(place, high), symbol, b)], rest, place, high)
    ensures LiteralPiece(LiteralCode([Adaptive(probs[base + symbol], b)] + c.ds, c.probs), probs, base, past,
                         [In(Plain(place, high), symbol, b)] + rest, place, high)
  {
    hide Adapt, Block, Learned, Weighed;
    PlainNext(probs, base, past, place, high, symbol, b);
    WeighedFirst(past, In(Plain(place, high), symbol, b), rest);
  }

  lemma ScaledQuotient(x: nat, p: nat, q: nat)
    requires p >= 1 && q >= 1
    ensures x * p / (q * p) == x / q
  {
    var a, r := x / q, x % q;
    assert (a * q + r) * p == a * (q * p) + r * p;
    MulBelow(r, q, p, 0);
    DivModIs(x * p, q * p, a, r * p);
  }

  /** The byte compared with, its next bit at the top. */
  function Raised(compared: byte, left: nat): nat
    requires left <= 8
  {
    var v: nat := compared;
    v * Pow2(8 - left)
  }

  /** The compared bit comes to the top as the byte is doubled. */
  lemma ComparedBit(compared: byte, left: nat)
    requires 1 <= left <= 8
    ensures Raised(compared, left) / 0x80 % 2 == NextBit(compared, left)
    ensures left > 1 ==> 2 * Raised(compared, left) == Raised(compared, left - 1)
  {
    var p, q := Pow2(8 - left), Pow2(left - 1);
    Pow2Sum(8 - left, left - 1);
    assert q * p == 0x80 by { assert Pow2(7) == 0x80; }
    ScaledQuotient(compared, p, q);
    if left > 1 {
      assert Pow2(8 - (left - 1)) == 2 * p;
      Doubled(compared, p);
    }
  }

  lemma Doubled(x: nat, p: nat)
    ensures 2 * (x * p) == x * (2 * p)
  {
  }

  lemma BesideUnfolds(probs: seq<Prob>, base: nat, symbol: nat, left: nat, compared: byte, v: byte)
    requires base + 0x300 <= |probs| && Symbol(symbol, left) && 0 < left <= 8
    ensures var b, other := NextBit(v, left), NextBit(compared, left);
            && symbol < 0x100 && Symbol(2 * symbol + b, left - 1)
            && var i := base + 0x100 * (1 + other) + symbol;
               var t := probs[i := Adapt(probs[i], b)];
               var c := if other == b && left > 1
                        then EncodeMatched(t, base, 2 * symbol + b, left - 1, Raised(compared, left - 1), v)
                        else EncodePlain(t, base, 2 * symbol + b, left - 1, v);
               EncodeMatched(probs, base, symbol, left, Raised(compared, left), v)
               == LiteralCode([Adaptive(probs[i], b)] + c.ds, c.probs)
  {
    hide Adapt, EncodePlain, Symbol;
    ComparedBit(compared, left);
    SymbolStep(symbol, left, NextBit(v, left));
    hide NextBit, Pow2;
  }

  lemma {:induction false} BesideLearns(probs: seq<Prob>, base: nat, past: Events, place: nat, high: nat, symbol: nat,
                                        left: nat, compared: byte, v: byte)
    requires base + 0x300 <= |probs| && Block(probs, base, past, place, high) && Symbol(symbol, left) && 0 < left <= 8
    ensures LiteralPiece(EncodeMatched(probs, base, symbol, left, Raised(compared, left), v), probs, base, past,
                         BesideEvents(place, high, symbol, left, compared, v), place, high)
    decreases left
  {
    hide Adapt, Block, Learned, Symbol, Path, EncodePlain, Raised, LiteralPiece;
    BesideUnfolds(probs, base, symbol, left, compared, v);
    var b: bit, other: bit := NextBit(v, left), NextBit(compared, left);
    hide NextBit, EncodeMatched;
    var node := 2 * symbol + b;
    var i := base + 0x100 * (1 + other) + symbol;
    var t := probs[i := Adapt(probs[i], b)];
    var past' := past + [In(Beside(place, high, other), symbol, b)];
    BesideNext(probs, base, past, place, high, symbol, other, b);
    if other == b && left > 1 {
      BesideLearns(t, base, past', place, high, node, left - 1, compared, v);
      var c := EncodeMatched(t, base, node, left - 1, Raised(compared, left - 1), v);
      BesideStep(probs, base, past, place, high, symbol, other, b, c,
                 BesideEvents(place, high, node, left - 1, compared, v));
    } else {
      PlainLearns(t, base, past', place, high, node, left - 1, v);
      BesideStep(probs, base, past, place, high, symbol, other, b, EncodePlain(t, base, node, left - 1, v),
                 Path(Plain(place, high), node, left - 1, v));
    }
  }

  /** One bit of a literal beside another byte, and its rest. */
  lemma BesideStep(probs: seq<Prob>, base: nat, past: Events, place: nat, high: nat, symbol: nat, other: bit, b: bit,
                   c: LiteralCode, rest: Events)
    requires Block(probs, base, past, place, high) && symbol < 0x100 && base + 0x300 <= |probs|
    requires var i := base + 0x100 * (1 + other) + symbol;
             LiteralPiece(c, probs[i := Adapt(probs[i], b)], base,
                          past + [In(Beside(place, high, other), symbol, b)], rest, place, high)
    ensures LiteralPiece(LiteralCode([Adaptive(probs[base + 0x100 * (1 + other) + symbol], b)] + c.ds, c.probs), probs,
                         base, past, [In(Beside(place, high, other), symbol, b)] + rest, place, high)
  {
    hide Adapt, Block, Learned, Weighed;
    BesideNext(probs, base, past, place, high, symbol, other, b);
    WeighedFirst(past, In(Beside(place, high, other), symbol, b), rest);
  }

  /** Which position bits and which bits of the byte before block `n` is for. */
  function Place(lc: nat, n: nat): nat {
    hide Pow2;
    n / Pow2(lc)
  }

  function High(lc: nat, n: nat): nat {
    hide Pow2;
    n % Pow2(lc)
  }

  ghost predicate LiteralsLearn(lc: nat, probs: seq<Prob>, past: Events) {
    forall n: nat | 0x300 * n + 0x300 <= |probs| :: Block(probs, 0x300 * n, past, Place(lc, n), High(lc, n))
  }

  lemma BlockStays(probs: seq<Prob>, t: seq<Prob>, base: nat, other: nat, past: Events, es: Events, place: nat,
                   high: nat, s: iset<Family>)
    requires Block(probs, other, past, place, high) && SameOutside(t, probs, base) && Within(es, s)
    requires other + 0x300 <= base || base + 0x300 <= other
    requires forall f | f in s :: !((f.Plain? || f.Beside?) && f.place == place && f.high == high)
    ensures Block(t, other, past + es, place, high)
  {
    hide Row, Within;
    assert t[other..other + 0x100] == probs[other..other + 0x100];
    assert t[other + 0x100..other + 0x200] == probs[other + 0x100..other + 0x200];
    assert t[other + 0x200..other + 0x300] == probs[other + 0x200..other + 0x300];
    RowStays(probs[other..other + 0x100], past, es, Plain(place, high), s);
    RowStays(probs[other + 0x100..other + 0x200], past, es, Beside(place, high, 0), s);
    RowStays(probs[other + 0x200..other + 0x300], past, es, Beside(place, high, 1), s);
  }

  lemma LiteralLearns(lc: nat, lp: nat, probs: seq<Prob>, past: Events, position: nat, previous: byte, state: nat,
                      compared: byte, v: byte)
    requires lc + lp <= 4 && |probs| == 0x300 * Pow2(lc + lp) && LiteralsLearn(lc, probs, past)
    ensures var c := EncodeLiteral(probs, LiteralBase(lc, lp, position, previous), state, compared, v);
            var es := LiteralEvents(LowBits(position, lp), HighBits(previous, lc), state, compared, v);
            && c.ds == Weighed(past, es) && LiteralsLearn(lc, c.probs, past + es)
            && Within(es, BlockFamilies(LowBits(position, lp), HighBits(previous, lc)))
  {
    hide Block, EncodeLiteral, LiteralEvents, Weighed, Within, Place, High, LiteralBase, BlockFamilies, Pow2, LowBits,
         HighBits;
    var n := BlockNumber(lc, lp, position, previous);
    BlockFits(n, Pow2(lc + lp));
    var place, high := Place(lc, n), High(lc, n);
    assert Block(probs, 0x300 * n, past, place, high);
    hide LiteralsLearn;
    BlockLearns(probs, 0x300 * n, past, place, high, state, compared, v);
    OthersStay(lc, probs, EncodeLiteral(probs, 0x300 * n, state, compared, v).probs, past,
               LiteralEvents(place, high, state, compared, v), n);
  }

  lemma BlockFits(n: nat, blocks: nat)
    requires n < blocks
    ensures 0x300 * n + 0x300 <= 0x300 * blocks
  {
  }

  lemma BlockLearns(probs: seq<Prob>, base: nat, past: Events, place: nat, high: nat, state: nat, compared: byte,
                    v: byte)
    requires base + 0x300 <= |probs| && Block(probs, base, past, place, high)
    ensures var c, es := EncodeLiteral(probs, base, state, compared, v), LiteralEvents(place, high, state, compared, v);
            && c.ds == Weighed(past, es) && Block(c.probs, base, past + es, place, high)
            && SameOutside(c.probs, probs, base) && Within(es, BlockFamilies(place, high))
  {
    hide Block, Learned, Path, BesideEvents, EncodePlain, EncodeMatched, Within, Weighed;
    FirstSymbol();
    assert Raised(compared, 8) == compared;
    if state >= 7 {
      BesideLearns(probs, base, past, place, high, 1, 8, compared, v);
    } else {
      PlainLearns(probs, base, past, place, high, 1, 8, v);
    }
  }

  lemma OthersStay(lc: nat, probs: seq<Prob>, t: seq<Prob>, past: Events, es: Events, n: nat)
    requires LiteralsLearn(lc, probs, past) && SameOutside(t, probs, 0x300 * n)
    requires Within(es, BlockFamilies(Place(lc, n), High(lc, n)))
    requires Block(t, 0x300 * n, past + es, Place(lc, n), High(lc, n))
    ensures LiteralsLearn(lc, t, past + es)
  {
    hide Block, Within, Place, High, SameOutside;
    forall k: nat | 0x300 * k + 0x300 <= |t|
      ensures Block(t, 0x300 * k, past + es, Place(lc, k), High(lc, k))
    {
      if k != n {
        OtherStays(lc, probs, t, past, es, n, k);
      }
    }
  }

  lemma OtherStays(lc: nat, probs: seq<Prob>, t: seq<Prob>, past: Events, es: Events, n: nat, k: nat)
    requires LiteralsLearn(lc, probs, past) && SameOutside(t, probs, 0x300 * n)
    requires Within(es, BlockFamilies(Place(lc, n), High(lc, n)))
    requires k != n && 0x300 * k + 0x300 <= |t|
    ensures Block(t, 0x300 * k, past + es, Place(lc, k), High(lc, k))
  {
    hide Block, Within, Pow2;
    OtherBlock(k, n, Pow2(lc));
    assert Block(probs, 0x300 * k, past, Place(lc, k), High(lc, k));
    hide Place, High;
    BlockStays(probs, t, 0x300 * n, 0x300 * k, past, es, Place(lc, k), High(lc, k),
               BlockFamilies(Place(lc, n), High(lc, n)));
  }

  lemma FirstSymbol()
    ensures Symbol(1, 8) && Pow2(8 - 8) == 1
  {
  }

  lemma OtherBlock(k: nat, n: nat, p: nat)
    requires p >= 1 && k != n
    ensures !(k / p == n / p && k % p == n % p)
  {
    assert k == k / p * p + k % p && n == n / p * p + n % p;
  }

  lemma BlockNumber(lc: nat, lp: nat, position: nat, previous: byte) returns (n: nat)
    requires lc + lp <= 4
    ensures LiteralBase(lc, lp, position, previous) == 0x300 * n && n < Pow2(lc + lp)
    ensures Place(lc, n) == LowBits(position, lp) && High(lc, n) == HighBits(previous, lc)
  {
    var p := Pow2(lc);
    LiteralState(lc, lp, position, previous);
    Pow2Sum(lc, 8 - lc);
    assert Pow2(8) == 0x100;
    QuotientBelow(previous, Pow2(8 - lc), p);
    n := position % Pow2(lp) * p + previous / Pow2(8 - lc);
    DivModIs(n, p, position % Pow2(lp), previous / Pow2(8 - lc));
  }

  // ---- the whole model ----

  ghost predicate Grid(t: seq<Prob>, past: Events, q: Question) {
    |t| == STATES * POSITION_STATES &&
    forall s, ps | 0 <= s < STATES && 0 <= ps < POSITION_STATES ::
      t[POSITION_STATES * s + ps] == Learned(past, Context(Asked(q, s, ps), 0))
  }

  ghost predicate Column(t: seq<Prob>, past: Events, q: Question) {
    |t| == STATES && forall s | 0 <= s < STATES :: t[s] == Learned(past, Context(Asked(q, s, 0), 0))
  }

  /** Every probability of the model is what its context has learned. */
  ghost predicate Learns(m: Model, past: Events)
    requires ModelOk(m)
  {
    && Grid(m.isMatch, past, IsMatch) && Grid(m.isRepZeroLong, past, IsRepZeroLong)
    && Column(m.isRep, past, IsRep) && Column(m.isRepZero, past, IsRepZero)
    && Column(m.isRepOne, past, IsRepOne) && Column(m.isRepTwo, past, IsRepTwo)
    && LiteralsLearn(m.lc, m.literal, past)
    && LengthsLearn(m.length, past, false) && LengthsLearn(m.repLength, past, true)
    && DistancesLearn(m.distance, past)
  }

  /** Contexts that share a table. */
  datatype Group = Question(q: Question) | Literals | NewLengths | OldLengths | Places

  function GroupOf(f: Family): Group {
    match f
    case Asked(q, _, _) => Group.Question(q)
    case Plain(_, _) | Beside(_, _, _) => Literals
    case LengthClass(rep) => if rep then OldLengths else NewLengths
    case LowLength(rep, _) => if rep then OldLengths else NewLengths
    case MiddleLength(rep, _) => if rep then OldLengths else NewLengths
    case HighLength(rep) => if rep then OldLengths else NewLengths
    case Slot(_) | Footer(_) | Align => Places
  }

  ghost function Of(g: Group): iset<Family> {
    iset f: Family | GroupOf(f) == g
  }

  lemma GridStays(t: seq<Prob>, past: Events, es: Events, q: Question, g: Group)
    requires Grid(t, past, q) && Within(es, Of(g)) && g != Group.Question(q)
    ensures Grid(t, past + es, q)
  {
    hide Learned, Within;
    Elsewhere(past, es, Of(g));
  }

  lemma ColumnStays(t: seq<Prob>, past: Events, es: Events, q: Question, g: Group)
    requires Column(t, past, q) && Within(es, Of(g)) && g != Group.Question(q)
    ensures Column(t, past + es, q)
  {
    hide Learned, Within;
    Elsewhere(past, es, Of(g));
  }

  lemma LiteralsStay(lc: nat, t: seq<Prob>, past: Events, es: Events, g: Group)
    requires LiteralsLearn(lc, t, past) && Within(es, Of(g)) && g != Literals
    ensures LiteralsLearn(lc, t, past + es)
  {
    hide Within, Place, High;
    forall n: nat | 0x300 * n + 0x300 <= |t|
      ensures Block(t, 0x300 * n, past + es, Place(lc, n), High(lc, n))
    {
      BlockKept(t, 0x300 * n, past, es, Place(lc, n), High(lc, n), Of(g));
    }
  }

  lemma BlockKept(t: seq<Prob>, base: nat, past: Events, es: Events, place: nat, high: nat, s: iset<Family>)
    requires Block(t, base, past, place, high) && Within(es, s)
    requires Plain(place, high) !in s && Beside(place, high, 0) !in s && Beside(place, high, 1) !in s
    ensures Block(t, base, past + es, place, high)
  {
    hide Row, Within;
    RowStays(t[base..base + 0x100], past, es, Plain(place, high), s);
    RowStays(t[base + 0x100..base + 0x200], past, es, Beside(place, high, 0), s);
    RowStays(t[base + 0x200..base + 0x300], past, es, Beside(place, high, 1), s);
  }

  lemma LengthsKept(m: Lengths, past: Events, es: Events, rep: bool, g: Group)
    requires LengthsOk(m) && LengthsLearn(m, past, rep) && Within(es, Of(g))
    requires g != (if rep then OldLengths else NewLengths)
    ensures LengthsLearn(m, past + es, rep)
  {
    hide Learned, Within, LengthsOk;
    Elsewhere(past, es, Of(g));
  }

  lemma DistancesKept(m: Distances, past: Events, es: Events, g: Group)
    requires DistancesOk(m) && DistancesLearn(m, past) && Within(es, Of(g)) && g != Places
    ensures DistancesLearn(m, past + es)
  {
    hide Within, Row, DistancesOk;
    DistancesStay(m, past, es, Of(g));
  }

  /** Two models that differ at most in the tables of one group. */
  predicate SameBut(m: Model, m': Model, g: Group) {
    && m'.lc == m.lc
    && (g == Group.Question(IsMatch) || m'.isMatch == m.isMatch)
    && (g == Group.Question(IsRepZeroLong) || m'.isRepZeroLong == m.isRepZeroLong)
    && (g == Group.Question(IsRep) || m'.isRep == m.isRep)
    && (g == Group.Question(IsRepZero) || m'.isRepZero == m.isRepZero)
    && (g == Group.Question(IsRepOne) || m'.isRepOne == m.isRepOne)
    && (g == Group.Question(IsRepTwo) || m'.isRepTwo == m.isRepTwo)
    && (g == Literals || m'.literal == m.literal)
    && (g == NewLengths || m'.length == m.length)
    && (g == OldLengths || m'.repLength == m.repLength)
    && (g == Places || m'.distance == m.distance)
  }

  /** What one group's table holds. */
  ghost predicate Part(m: Model, past: Events, g: Group)
    requires ModelOk(m)
  {
    match g
    case Question(q) =>
      (match q
       case IsMatch => Grid(m.isMatch, past, q)
       case IsRepZeroLong => Grid(m.isRepZeroLong, past, q)
       case IsRep => Column(m.isRep, past, q)
       case IsRepZero => Column(m.isRepZero, past, q)
       case IsRepOne => Column(m.isRepOne, past, q)
       case IsRepTwo => Column(m.isRepTwo, past, q))
    case Literals => LiteralsLearn(m.lc, m.literal, past)
    case NewLengths => LengthsLearn(m.length, past, false)
    case OldLengths => LengthsLearn(m.repLength, past, true)
    case Places => DistancesLearn(m.distance, past)
  }

  /** Events of one group teach its own table only. */
  lemma Advance(m: Model, m': Model, past: Events, es: Events, g: Group)
    requires ModelOk(m) && ModelOk(m') && Learns(m, past) && SameBut(m, m', g)
    requires Within(es, Of(g)) && Part(m', past + es, g)
    ensures Learns(m', past + es)
  {
    hide Grid, Column, LiteralsLearn, LengthsLearn, DistancesLearn, Within, ModelOk;
    if g != Group.Question(IsMatch) { GridStays(m.isMatch, past, es, IsMatch, g); }
    if g != Group.Question(IsRepZeroLong) { GridStays(m.isRepZeroLong, past, es, IsRepZeroLong, g); }
    if g != Group.Question(IsRep) { ColumnStays(m.isRep, past, es, IsRep, g); }
    if g != Group.Question(IsRepZero) { ColumnStays(m.isRepZero, past, es, IsRepZero, g); }
    if g != Group.Question(IsRepOne) { ColumnStays(m.isRepOne, past, es, IsRepOne, g); }
    if g != Group.Question(IsRepTwo) { ColumnStays(m.isRepTwo, past, es, IsRepTwo, g); }
    if g != Literals { LiteralsStay(m.lc, m.literal, past, es, g); }
    TablesOk(m);
    if g != NewLengths { LengthsKept(m.length, past, es, false, g); }
    if g != OldLengths { LengthsKept(m.repLength, past, es, true, g); }
    if g != Places { DistancesKept(m.distance, past, es, g); }
  }

  lemma TablesOk(m: Model)
    requires ModelOk(m)
    ensures LengthsOk(m.length) && LengthsOk(m.repLength) && DistancesOk(m.distance)
  {
  }

  // ---- one choice ----

  lemma GridNext(t: seq<Prob>, past: Events, q: Question, s: nat, ps: nat, b: bit)
    requires Grid(t, past, q) && s < STATES && ps < POSITION_STATES
    ensures POSITION_STATES * s + ps < |t|
    ensures t[POSITION_STATES * s + ps] == Learned(past, Context(Asked(q, s, ps), 0))
    ensures Grid(Flip(t, POSITION_STATES * s + ps, b), past + [In(Asked(q, s, ps), 0, b)], q)
  {
    hide Learned, Adapt;
    var e, u := In(Asked(q, s, ps), 0, b), Flip(t, POSITION_STATES * s + ps, b);
    forall s', ps' | 0 <= s' < STATES && 0 <= ps' < POSITION_STATES
      ensures u[POSITION_STATES * s' + ps'] == Learned(past + [e], Context(Asked(q, s', ps'), 0))
    {
      LearnedNext(past, e, Context(Asked(q, s', ps'), 0));
    }
  }

  lemma ColumnNext(t: seq<Prob>, past: Events, q: Question, s: nat, b: bit)
    requires Column(t, past, q) && s < STATES
    ensures s < |t| && t[s] == Learned(past, Context(Asked(q, s, 0), 0))
    ensures Column(Flip(t, s, b), past + [In(Asked(q, s, 0), 0, b)], q)
  {
    hide Learned, Adapt;
    var e := In(Asked(q, s, 0), 0, b);
    forall s' | 0 <= s' < STATES
      ensures Flip(t, s, b)[s'] == Learned(past + [e], Context(Asked(q, s', 0), 0))
    {
      LearnedNext(past, e, Context(Asked(q, s', 0), 0));
    }
  }

  /** A piece of code says these events, and its model has learned them. */
  ghost predicate Says(e: OperationCode, past: Events, es: Events) {
    ModelOk(e.m) && e.ds == Weighed(past, es) && Learns(e.m, past + es)
  }

  lemma DecideSays(past: Events, c: Context, b: bit, tail: OperationCode, es: Events)
    requires Says(tail, past + [Event.Coded(c, b)], es)
    ensures Says(Decide(Learned(past, c), b, tail), past, [Event.Coded(c, b)] + es)
  {
    hide Learned, Weighed, Learns, ModelOk;
    WeighedFirst(past, Event.Coded(c, b), es);
  }

  /** The model after a question is answered. */
  function Answered(m: Model, q: Question, ps: nat, b: bit): (m': Model)
    requires ModelOk(m) && ps < POSITION_STATES
    ensures ModelOk(m') && m'.state == m.state && m'.reps == m.reps
  {
    hide LengthsOk, DistancesOk, Flip;
    var combined := POSITION_STATES * m.state + ps;
    match q
    case IsMatch => m.(isMatch := Flip(m.isMatch, combined, b))
    case IsRepZeroLong => m.(isRepZeroLong := Flip(m.isRepZeroLong, combined, b))
    case IsRep => m.(isRep := Flip(m.isRep, m.state, b))
    case IsRepZero => m.(isRepZero := Flip(m.isRepZero, m.state, b))
    case IsRepOne => m.(isRepOne := Flip(m.isRepOne, m.state, b))
    case IsRepTwo => m.(isRepTwo := Flip(m.isRepTwo, m.state, b))
  }

  function Seat(q: Question, ps: nat): nat {
    if q.IsMatch? || q.IsRepZeroLong? then ps else 0
  }

  function Asks(m: Model, q: Question, ps: nat): Prob
    requires ModelOk(m) && ps < POSITION_STATES
  {
    hide LengthsOk, DistancesOk;
    var combined := POSITION_STATES * m.state + ps;
    match q
    case IsMatch => m.isMatch[combined]
    case IsRepZeroLong => m.isRepZeroLong[combined]
    case IsRep => m.isRep[m.state]
    case IsRepZero => m.isRepZero[m.state]
    case IsRepOne => m.isRepOne[m.state]
    case IsRepTwo => m.isRepTwo[m.state]
  }

  lemma QuestionLearns(m: Model, past: Events, q: Question, ps: nat, b: bit)
    requires ModelOk(m) && Learns(m, past) && ps < POSITION_STATES
    ensures var c := Context(Asked(q, m.state, Seat(q, ps)), 0);
            && Asks(m, q, ps) == Learned(past, c)
            && Learns(Answered(m, q, ps, b), past + [Event.Coded(c, b)])
  {
    hide Learned, Grid, Column, LiteralsLearn, LengthsLearn, DistancesLearn, Flip, LengthsOk, DistancesOk;
    var e := In(Asked(q, m.state, Seat(q, ps)), 0, b);
    match q {
      case IsMatch => GridNext(m.isMatch, past, q, m.state, ps, b);
      case IsRepZeroLong => GridNext(m.isRepZeroLong, past, q, m.state, ps, b);
      case IsRep => ColumnNext(m.isRep, past, q, m.state, b);
      case IsRepZero => ColumnNext(m.isRepZero, past, q, m.state, b);
      case IsRepOne => ColumnNext(m.isRepOne, past, q, m.state, b);
      case IsRepTwo => ColumnNext(m.isRepTwo, past, q, m.state, b);
    }
    assert Part(Answered(m, q, ps, b), past + [e], Group.Question(q));
    hide Learns, ModelOk;
    Advance(m, Answered(m, q, ps, b), past, [e], Group.Question(q));
  }

  lemma LengthWithin(rep: bool, ps: nat, v: nat)
    ensures Within(LengthEvents(rep, ps, v), Of(if rep then OldLengths else NewLengths))
  {
    hide Path;
    if v < 8 {
      PathWithin(LowLength(rep, ps), 1, 3, v);
    } else if v < 16 {
      PathWithin(MiddleLength(rep, ps), 1, 3, v - 8);
    } else {
      PathWithin(HighLength(rep), 1, 8, v - 16);
    }
  }

  lemma RepLengthSays(m: Model, past: Events, ps: nat, reps: seq<u32>, extra: nat)
    requires ModelOk(m) && Learns(m, past) && ps < POSITION_STATES && |reps| == 4 && extra < 272
    ensures Says(EncodeRepLength(m, ps, reps, extra), past, LengthEvents(true, ps, extra))
  {
    hide Learned, Grid, Column, LiteralsLearn, LengthsLearn, DistancesLearn, LengthsOk, DistancesOk, EncodeLength,
         LengthEvents, Within, Weighed;
    LengthLearns(m.repLength, past, true, ps, extra);
    LengthWithin(true, ps, extra);
    var e, es := EncodeRepLength(m, ps, reps, extra), LengthEvents(true, ps, extra);
    assert Part(e.m, past + es, OldLengths);
    hide Learns;
    Advance(m, e.m, past, es, OldLengths);
  }

  lemma DistanceWithin(length: nat, d: u32)
    ensures Within(DistanceEvents(length, d), Of(Places))
  {
    hide Path, ReversePath, RawBits, SlotOf, Base;
    var slot := SlotOf(d);
    var footer := if slot < 4 then 0 else d - Base(slot);
    PathWithin(Slot(Min(length, 3)), 1, 6, slot);
    if 4 <= slot < 14 {
      ReverseWithin(Footer(slot), 1, slot / 2 - 1, footer);
    } else if slot >= 14 {
      RawWithin(slot / 2 - 5, footer / 16);
      ReverseWithin(Align, 1, 4, footer % 16);
    }
  }

  lemma NewMatchSays(m: Model, past: Events, ps: nat, offset: u32, extra: nat)
    requires ModelOk(m) && Learns(m, past) && ps < POSITION_STATES && extra < 272
    ensures Says(EncodeNewMatch(m, ps, offset, extra), past,
                 LengthEvents(false, ps, extra) + DistanceEvents(extra, offset))
  {
    hide Learned, Grid, Column, LiteralsLearn, LengthsLearn, DistancesLearn, LengthsOk, DistancesOk, EncodeLength,
         EncodeDistance, LengthEvents, DistanceEvents, Within, Weighed;
    var first, second := LengthEvents(false, ps, extra), DistanceEvents(extra, offset);
    var len, dist := EncodeLength(m.length, ps, extra), EncodeDistance(m.distance, extra, offset);
    LengthLearns(m.length, past, false, ps, extra);
    LengthWithin(false, ps, extra);
    var m1 := m.(length := len.m);
    assert Part(m1, past + first, NewLengths);
    Advance(m, m1, past, first, NewLengths);
    DistanceLearns(m1.distance, past + first, extra, offset);
    DistanceWithin(extra, offset);
    var e := EncodeNewMatch(m, ps, offset, extra);
    assert Part(e.m, past + first + second, Places);
    hide Learns;
    Advance(m1, e.m, past + first, second, Places);
    WeighedAppend(past, first, second);
    assert past + first + second == past + (first + second);
  }

  lemma LiteralSays(m: Model, past: Events, out: seq<byte>, b: byte)
    requires ModelOk(m) && Learns(m, past)
    ensures Says(EncodeLiteralOp(m, out, b), past,
                 LiteralEvents(LowBits(|out|, m.lp), HighBits(Previous(out), m.lc), m.state, MatchByte(out, m.reps[0]),
                               b))
  {
    hide Learned, Grid, Column, LiteralsLearn, LengthsLearn, DistancesLearn, LengthsOk, DistancesOk, EncodeLiteral,
         LiteralEvents, LowBits, HighBits, Within, Weighed, LiteralBase, MatchByte, Previous, Pow2;
    var place, high, compared := LowBits(|out|, m.lp), HighBits(Previous(out), m.lc), MatchByte(out, m.reps[0]);
    LiteralLearns(m.lc, m.lp, m.literal, past, |out|, Previous(out), m.state, compared, b);
    var e, es := EncodeLiteralOp(m, out, b), LiteralEvents(place, high, m.state, compared, b);
    BlockGroup(es, place, high);
    assert Part(e.m, past + es, Literals);
    hide Learns;
    Advance(m, e.m, past, es, Literals);
  }

  lemma BlockGroup(es: Events, place: nat, high: nat)
    requires Within(es, BlockFamilies(place, high))
    ensures Within(es, Of(Literals))
  {
  }

  /** A question in front of what follows its answer. */
  lemma AskSays(m: Model, past: Events, q: Question, ps: nat, b: bit, tail: OperationCode, es: Events)
    requires ModelOk(m) && Learns(m, past) && ps < POSITION_STATES
    requires Says(tail, past + [In(Asked(q, m.state, Seat(q, ps)), 0, b)], es)
    ensures Says(Decide(Asks(m, q, ps), b, tail), past, [In(Asked(q, m.state, Seat(q, ps)), 0, b)] + es)
  {
    hide Learned, Learns, Says, ModelOk, Asks, Answered;
    QuestionLearns(m, past, q, ps, b);
    DecideSays(past, Context(Asked(q, m.state, Seat(q, ps)), 0), b, tail, es);
  }

  lemma LastSays(m: Model, past: Events, ps: nat, which: nat, extra: nat)
    requires ModelOk(m) && Learns(m, past) && ps < POSITION_STATES && 2 <= which < 4 && extra < 272
    ensures Says(EncodeRepLast(m, ps, which, extra), past,
                 [In(Asked(IsRepTwo, m.state, 0), 0, if which == 2 then 0 else 1)] + LengthEvents(true, ps, extra))
  {
    hide Learned, Learns, Says, EncodeRepLength, LengthEvents, Decide, Flip;
    var b: bit := which - 2;
    var m' := Answered(m, IsRepTwo, ps, b);
    QuestionLearns(m, past, IsRepTwo, ps, b);
    var past' := past + [In(Asked(IsRepTwo, m.state, 0), 0, b)];
    RepLengthSays(m', past', ps, ToFront(m.reps, which), extra);
    AskSays(m, past, IsRepTwo, ps, b, EncodeRepLength(m', ps, ToFront(m.reps, which), extra),
            LengthEvents(true, ps, extra));
  }

  lemma LaterSays(m: Model, past: Events, ps: nat, which: nat, extra: nat)
    requires ModelOk(m) && Learns(m, past) && ps < POSITION_STATES && 1 <= which < 4 && extra < 272
    ensures Says(EncodeRepLater(m, ps, which, extra), past, LaterEvents(m.state, ps, which, extra))
  {
    hide Learned, Learns, Says, EncodeRepLength, EncodeRepLast, LengthEvents, Decide, Flip;
    var b: bit := if which == 1 then 0 else 1;
    var m' := Answered(m, IsRepOne, ps, b);
    QuestionLearns(m, past, IsRepOne, ps, b);
    var past' := past + [In(Asked(IsRepOne, m.state, 0), 0, b)];
    if which == 1 {
      RepLengthSays(m', past', ps, ToFront(m.reps, 1), extra);
      AskSays(m, past, IsRepOne, ps, b, EncodeRepLength(m', ps, ToFront(m.reps, 1), extra),
              LengthEvents(true, ps, extra));
    } else {
      LastSays(m', past', ps, which, extra);
      AskSays(m, past, IsRepOne, ps, b, EncodeRepLast(m', ps, which, extra),
              [In(Asked(IsRepTwo, m.state, 0), 0, if which == 2 then 0 else 1)] + LengthEvents(true, ps, extra));
    }
  }

  lemma ZeroSays(m: Model, past: Events, ps: nat, c: Choice)
    requires ModelOk(m) && Learns(m, past) && ps < POSITION_STATES && ChoiceOk(m.reps, c)
    requires c.Short? || (c.Again? && c.which == 0)
    ensures Says(EncodeRepZero(m, ps, c), past,
                 [In(Asked(IsRepZeroLong, m.state, ps), 0, if c.Short? then 0 else 1)] +
                 if c.Short? then [] else LengthEvents(true, ps, c.extra))
  {
    hide Learned, Learns, EncodeRepLength, LengthEvents, Decide, Flip;
    var b: bit := if c.Short? then 0 else 1;
    var m' := Answered(m, IsRepZeroLong, ps, b);
    QuestionLearns(m, past, IsRepZeroLong, ps, b);
    var past' := past + [In(Asked(IsRepZeroLong, m.state, ps), 0, b)];
    if c.Short? {
      ShortSays(m', past');
      AskSays(m, past, IsRepZeroLong, ps, b, OperationCode([], ShortModel(m')), []);
    } else {
      RepLengthSays(m', past', ps, m.reps, c.extra);
      AskSays(m, past, IsRepZeroLong, ps, b, EncodeRepLength(m', ps, m.reps, c.extra), LengthEvents(true, ps, c.extra));
    }
  }

  lemma ShortSays(m: Model, past: Events)
    requires ModelOk(m) && Learns(m, past)
    ensures Says(OperationCode([], ShortModel(m)), past, [])
  {
    hide Learned, Grid, Column, LiteralsLearn, LengthsLearn, DistancesLearn, LengthsOk, DistancesOk;
    assert past + [] == past;
  }

  lemma RepetitionSays(m: Model, past: Events, ps: nat, c: Choice)
    requires ModelOk(m) && Learns(m, past) && ps < POSITION_STATES && ChoiceOk(m.reps, c) && (c.Short? || c.Again?)
    ensures Says(EncodeRepetition(m, ps, c), past, RepetitionEvents(m.state, ps, c))
  {
    hide Learned, Learns, Says, EncodeRepZero, EncodeRepLater, LengthEvents, LaterEvents, Decide, Flip;
    var b: bit := if c.Short? || c.which == 0 then 0 else 1;
    var m' := Answered(m, IsRepZero, ps, b);
    QuestionLearns(m, past, IsRepZero, ps, b);
    var past' := past + [In(Asked(IsRepZero, m.state, 0), 0, b)];
    if b == 0 {
      ZeroSays(m', past', ps, c);
      var es := [In(Asked(IsRepZeroLong, m.state, ps), 0, if c.Short? then 0 else 1)] +
                if c.Short? then [] else LengthEvents(true, ps, c.extra);
      assert c.Short? ==> es == [In(Asked(IsRepZeroLong, m.state, ps), 0, 0)];
      AskSays(m, past, IsRepZero, ps, b, EncodeRepZero(m', ps, c), es);
    } else {
      LaterSays(m', past', ps, c.which, c.extra);
      AskSays(m, past, IsRepZero, ps, b, EncodeRepLater(m', ps, c.which, c.extra),
              LaterEvents(m.state, ps, c.which, c.extra));
    }
  }

  lemma MatchSays(m: Model, past: Events, ps: nat, c: Choice)
    requires ModelOk(m) && Learns(m, past) && ps < POSITION_STATES && ChoiceOk(m.reps, c) && !c.Lit?
    ensures Says(EncodeMatch(m, ps, c), past, MatchEvents(m.state, ps, c))
  {
    hide Learned, Learns, Says, EncodeNewMatch, EncodeRepetition, LengthEvents, DistanceEvents, RepetitionEvents,
         Decide, Flip;
    var b: bit := if c.New? then 0 else 1;
    var m' := Answered(m, IsRep, ps, b);
    QuestionLearns(m, past, IsRep, ps, b);
    var past' := past + [In(Asked(IsRep, m.state, 0), 0, b)];
    if c.New? {
      NewMatchSays(m', past', ps, c.offset, c.extra);
      AskSays(m, past, IsRep, ps, b, EncodeNewMatch(m', ps, c.offset, c.extra),
              LengthEvents(false, ps, c.extra) + DistanceEvents(c.extra, c.offset));
    } else {
      RepetitionSays(m', past', ps, c);
      AskSays(m, past, IsRep, ps, b, EncodeRepetition(m', ps, c), RepetitionEvents(m.state, ps, c));
    }
  }

  /** Every choice is coded as its events, each weighed by what its context has learned. */
  lemma ChoiceSays(m: Model, past: Events, out: seq<byte>, c: Choice)
    requires ModelOk(m) && Learns(m, past) && ChoiceOk(m.reps, c)
    ensures Says(Encode(m, out, c), past, ChoiceEvents(m.lc, m.lp, m.pb, m.state, m.reps, out, c))
  {
    hide Learned, Learns, Says, EncodeLiteralOp, EncodeMatch, LiteralEvents, MatchEvents, Decide, Flip, HighBits,
         MatchByte, Previous;
    var ps := PositionState(m, out);
    var b: bit := if c.Lit? then 0 else 1;
    var m' := Answered(m, IsMatch, ps, b);
    QuestionLearns(m, past, IsMatch, ps, b);
    var past' := past + [In(Asked(IsMatch, m.state, ps), 0, b)];
    if c.Lit? {
      LiteralSays(m', past', out, c.b);
      AskSays(m, past, IsMatch, ps, b, EncodeLiteralOp(m', out, c.b),
              LiteralEvents(LowBits(|out|, m.lp), HighBits(Previous(out), m.lc), m.state, MatchByte(out, m.reps[0]),
                            c.b));
    } else {
      MatchSays(m', past', ps, c);
      AskSays(m, past, IsMatch, ps, b, EncodeMatch(m', ps, c), MatchEvents(m.state, ps, c));
    }
  }

  // ---- whole lists of choices ----

  /** The state that a history of kinds means. */
  function Standing(ks: seq<Kind>): (s: nat)
    ensures s < STATES && Means(s, ks)
  {
    if ks == [] then 0
    else
      var before := Standing(ks[..|ks| - 1]);
      KindMeans(before, ks[..|ks| - 1], ks[|ks| - 1]);
      assert ks[..|ks| - 1] + [ks[|ks| - 1]] == ks;
      AfterKind(before, ks[|ks| - 1])
  }

  /** The events of a list of choices behind a history. */
  function ListEvents(lc: nat, lp: nat, pb: nat, ks: seq<Kind>, reps: seq<u32>, out: seq<byte>, w: Limits,
                      cs: seq<Choice>): Events
    requires lc <= 8 && |reps| == 4 && AllAllowed(reps, out, w, cs)
    decreases |cs|
  {
    if cs == [] then []
    else
      ChoiceEvents(lc, lp, pb, Standing(ks), reps, out, cs[0]) +
      ListEvents(lc, lp, pb, ks + [KindOf(cs[0])], NextReps(reps, cs[0]), Apply(Meaning(reps, cs[0]), out), w, cs[1..])
  }

  lemma SameProperties(m: Model, out: seq<byte>, c: Choice)
    requires ModelOk(m) && ChoiceOk(m.reps, c)
    ensures var m' := Encode(m, out, c).m; m.lc <= 4 && m'.lc == m.lc && m'.lp == m.lp && m'.pb == m.pb
  {
  }

  lemma {:induction false} CodeSays(m: Model, past: Events, ks: seq<Kind>, out: seq<byte>, w: Limits, cs: seq<Choice>)
    requires ModelOk(m) && Learns(m, past) && Means(m.state, ks) && AllAllowed(m.reps, out, w, cs)
    ensures Says(Code(m, out, w, cs), past, ListEvents(m.lc, m.lp, m.pb, ks, m.reps, out, w, cs))
    decreases |cs|
  {
    hide Learned, Learns, ModelOk, Encode, ChoiceEvents, Allowed, Apply, Meaning, Weighed, NextReps;
    if cs == [] {
      NothingWeighed(past);
      assert past + [] == past;
    } else {
      FirstAllowed(m, out, w, cs);
      SameProperties(m, out, cs[0]);
      OneMeaning(ks, m.state, Standing(ks));
      NextMeans(m, out, cs[0], ks);
      hide Means, Standing;
      ChoiceSays(m, past, out, cs[0]);
      var e, first := Encode(m, out, cs[0]), ChoiceEvents(m.lc, m.lp, m.pb, m.state, m.reps, out, cs[0]);
      var out', ks' := Apply(Meaning(m.reps, cs[0]), out), ks + [KindOf(cs[0])];
      CodeSays(e.m, past + first, ks', out', w, cs[1..]);
      var rest := ListEvents(m.lc, m.lp, m.pb, ks', e.m.reps, out', w, cs[1..]);
      WeighedAppend(past, first, rest);
      assert past + first + rest == past + (first + rest);
    }
  }

  lemma FreshLearns(lc: nat, lp: nat, pb: nat)
    requires lc + lp <= 4 && pb <= 4
    ensures Learns(FreshModel(lc, lp, pb), [])
  {
    hide Pow2, Place, High, FooterBits;
    var m := FreshModel(lc, lp, pb);
    assert m.literal == Fresh(0x300 * Pow2(lc + lp));
    forall n: nat | 0x300 * n + 0x300 <= |m.literal|
      ensures Block(m.literal, 0x300 * n, [], Place(lc, n), High(lc, n))
    {
    }
  }

  /** An LZMA stream that carries a list of choices is the arithmetic code of its events, each weighed by what its own
      context has learned; and it decodes. */
  lemma EventsDecode(p: Properties, dictionary: seq<byte>, cs: seq<Choice>, maximum: nat, trailing: seq<byte>)
    requires p.lc + p.lp <= 4 && p.pb <= 4 && |dictionary| == 4
    requires var w := LzmaLimits(dictionary, maximum);
             AllAllowed(NO_REPS, [], w, cs) && |Expand(NO_REPS, [], w, cs)| <= maximum
    ensures var w := LzmaLimits(dictionary, maximum);
            var all, es := Expand(NO_REPS, [], w, cs), ListEvents(p.lc, p.lp, p.pb, [], NO_REPS, [], w, cs);
            DecodeLzma(CodeBytes(Weighed([], es)) + trailing, [PropertyByte(p)] + dictionary, Some(|all|), maximum)
            == Ok(all)
  {
    hide Learned, Learns, AllAllowed, Expand, LzmaLimits, CodeBytes, Code, DecodeLzma, ListEvents, Weighed;
    var w, m := LzmaLimits(dictionary, maximum), FreshModel(p.lc, p.lp, p.pb);
    FreshProperties(p.lc, p.lp, p.pb);
    FreshLearns(p.lc, p.lp, p.pb);
    hide FreshModel, ModelOk;
    CodeSays(m, [], [], [], w, cs);
    LzmaInverts(p, dictionary, cs, maximum, trailing);
  }

  lemma FreshProperties(lc: nat, lp: nat, pb: nat)
    requires lc + lp <= 4 && pb <= 4
    ensures var m := FreshModel(lc, lp, pb);
            ModelOk(m) && m.lc == lc && m.lp == lp && m.pb == pb && m.reps == NO_REPS && Means(m.state, [])
  {
  }
}
