/** An LZMA stream on which the decoder drops the odd unit of its range and loses the code. */
module LzmaOddUnit {
  import opened Prelude
  import opened LzmaRange
  import opened LzmaIntervals
  import opened LzmaTrees
  import opened LzmaSymbols
  import opened LzmaOperations
  import opened LzmaStream
  import opened LzmaExact

  // ---- widths ----

  function Next(range: nat, d: Decision): (n: nat)
    requires TOP <= range < 0x1_0000_0000
    ensures TOP <= n < 0x1_0000_0000
  {
    Shifted(Carve(range, d).width)
  }

  /** The width of the interval of the decisions, step by step. */
  function Width(range: nat, ds: seq<Decision>): (w: nat)
    requires TOP <= range < 0x1_0000_0000
    ensures TOP <= w < 0x1_0000_0000
    decreases |ds|
  {
    if ds == [] then range else Width(Next(range, ds[0]), ds[1..])
  }

  lemma {:induction false} NarrowWidth(range: nat, ds: seq<Decision>)
    requires TOP <= range < 0x1_0000_0000
    ensures Narrow(range, ds).width == Width(range, ds)
    decreases |ds|
  {
    hide Carve;
    if ds != [] { NarrowWidth(Next(range, ds[0]), ds[1..]); }
  }

  lemma {:induction false} WidthAppend(range: nat, a: seq<Decision>, b: seq<Decision>)
    requires TOP <= range < 0x1_0000_0000
    ensures Width(range, a + b) == Width(Width(range, a), b)
    decreases |a|
  {
    hide Next;
    if a == [] {
      assert a + b == b;
    } else {
      assert (a + b)[0] == a[0] && (a + b)[1..] == a[1..] + b;
      WidthAppend(Next(range, a[0]), a[1..], b);
    }
  }

  function NextThree(range: nat, a: Decision, b: Decision, c: Decision): (n: nat)
    requires TOP <= range < 0x1_0000_0000
    ensures TOP <= n < 0x1_0000_0000
  {
    Next(Next(Next(range, a), b), c)
  }

  lemma WidthThree(range: nat, a: Decision, b: Decision, c: Decision)
    requires TOP <= range < 0x1_0000_0000
    ensures Width(range, [a, b, c]) == NextThree(range, a, b, c)
  {
    hide Next;
    assert [a, b, c][1..] == [b, c] && [b, c][1..] == [c] && [c][1..] == [];
    var r1 := Next(range, a);
    assert Width(r1, [b, c]) == Width(Next(r1, b), [c]);
  }

  // ---- decisions ----

  lemma TreeStep(t: Tree, node: nat, left: nat, v: nat)
    requires Fits(|t|, node, left) && v < Pow2(left) && left > 0
    ensures node < |t|
    ensures var b: bit := if v >= Pow2(left - 1) then 1 else 0;
            var rest, t' := v - Weight(b, Pow2(left - 1)), t[node := Adapt(t[node], b)];
            && 0 <= rest < Pow2(left - 1) && Fits(|t'|, 2 * node + b, left - 1)
            && var tail := EncodeFrom(t', 2 * node + b, left - 1, rest);
               EncodeFrom(t, node, left, v) == Coded([Adaptive(t[node], b)] + tail.ds, tail.tree)
  {
    hide Adapt, Fits;
    FitsStep(|t|, node, left);
  }

  /** Three bits of a path. */
  lemma TreeThree(t: Tree, node: nat, left: nat, a: bit, b: bit, c: bit, rest: nat)
    requires Fits(|t|, node, left) && left >= 3 && rest < Pow2(left - 3)
    ensures Weight(a, Pow2(left - 1)) + Weight(b, Pow2(left - 2)) + Weight(c, Pow2(left - 3)) + rest < Pow2(left)
    ensures var n2, n3 := 2 * node + a, 2 * (2 * node + a) + b;
            && n3 < |t| && Fits(|t|, 2 * n3 + c, left - 3)
            && var t' := t[node := Adapt(t[node], a)][n2 := Adapt(t[n2], b)][n3 := Adapt(t[n3], c)];
               var tail := EncodeFrom(t', 2 * n3 + c, left - 3, rest);
               var v := Weight(a, Pow2(left - 1)) + Weight(b, Pow2(left - 2)) + Weight(c, Pow2(left - 3)) + rest;
               EncodeFrom(t, node, left, v)
               == Coded([Adaptive(t[node], a), Adaptive(t[n2], b), Adaptive(t[n3], c)] + tail.ds, tail.tree)
  {
    hide Adapt, Fits, EncodeFrom;
    var p := Pow2(left - 3);
    assert Pow2(left - 2) == 2 * p && Pow2(left - 1) == 4 * p && Pow2(left) == 8 * p;
    hide Pow2;
    var n2, n3 := 2 * node + a, 2 * (2 * node + a) + b;
    assert node >= 1 by { PositiveNode(|t|, node, left); }
    TreeStep(t, node, left, Weight(a, 4 * p) + Weight(b, 2 * p) + Weight(c, p) + rest);
    var t1 := t[node := Adapt(t[node], a)];
    TreeStep(t1, n2, left - 1, Weight(b, 2 * p) + Weight(c, p) + rest);
    var t2 := t1[n2 := Adapt(t1[n2], b)];
    TreeStep(t2, n3, left - 2, Weight(c, p) + rest);
  }

  lemma PositiveNode(size: nat, node: nat, left: nat)
    requires Fits(size, node, left)
    ensures node >= 1
  {
  }

  lemma TreeDone(t: Tree, node: nat)
    requires Fits(|t|, node, 0)
    ensures EncodeFrom(t, node, 0, 0) == Coded([], t)
  {
  }

  lemma SixPowers()
    ensures Pow2(0) == 1 && Pow2(1) == 2 && Pow2(2) == 4 && Pow2(3) == 8
    ensures Pow2(4) == 16 && Pow2(5) == 32 && Pow2(6) == 64
  {
  }

  /** The tree after three bits of a path. */
  function Adapted(t: Tree, i: nat, a: bit, j: nat, b: bit, k: nat, c: bit): (t': Tree)
    requires i < |t| && j < |t| && k < |t|
  {
    t[i := Adapt(t[i], a)][j := Adapt(t[j], b)][k := Adapt(t[k], c)]
  }

  lemma OnesOfThree(t: Tree)
    requires |t| == Pow2(3)
    ensures |t| == 8
    ensures TreeCode(t, 3, 7).ds == [Adaptive(t[1], 1), Adaptive(t[3], 1), Adaptive(t[7], 1)]
    ensures TreeCode(t, 3, 7).tree == Adapted(t, 1, 1, 3, 1, 7, 1)
  {
    hide Adapt, Fits, EncodeFrom;
    FitsRoot(3);
    SixPowers();
    hide Pow2;
    TreeThree(t, 1, 3, 1, 1, 1, 0);
    TreeDone(Adapted(t, 1, 1, 3, 1, 7, 1), 15);
  }

  lemma SlotZero(t: Tree)
    requires |t| == Pow2(6)
    ensures |t| == 64
    ensures TreeCode(t, 6, 0).ds == [Adaptive(t[1], 0), Adaptive(t[2], 0), Adaptive(t[4], 0)]
                                    + [Adaptive(t[8], 0), Adaptive(t[16], 0), Adaptive(t[32], 0)]
    ensures TreeCode(t, 6, 0).tree == Adapted(Adapted(t, 1, 0, 2, 0, 4, 0), 8, 0, 16, 0, 32, 0)
  {
    hide Adapt, Fits, EncodeFrom;
    FitsRoot(6);
    SixPowers();
    hide Pow2;
    TreeThree(t, 1, 6, 0, 0, 0, 0);
    var t' := Adapted(t, 1, 0, 2, 0, 4, 0);
    TreeThree(t', 8, 3, 0, 0, 0, 0);
    TreeDone(Adapted(t', 8, 0, 16, 0, 32, 0), 64);
  }

  lemma SlotFifteen(t: Tree)
    requires |t| == Pow2(6)
    ensures |t| == 64
    ensures TreeCode(t, 6, 15).ds == [Adaptive(t[1], 0), Adaptive(t[2], 0), Adaptive(t[4], 1)]
                                     + [Adaptive(t[9], 1), Adaptive(t[19], 1), Adaptive(t[39], 1)]
  {
    hide Adapt, Fits, EncodeFrom;
    FitsRoot(6);
    SixPowers();
    hide Pow2;
    TreeThree(t, 1, 6, 0, 0, 1, 7);
    var t' := Adapted(t, 1, 0, 2, 0, 4, 1);
    TreeThree(t', 9, 3, 1, 1, 1, 0);
    TreeDone(Adapted(t', 9, 1, 19, 1, 39, 1), 79);
  }

  /** A zero byte under fresh probabilities. */
  lemma {:induction false} ZeroByte(probs: seq<Prob>, symbol: nat, left: nat)
    requires 0x300 <= |probs| && Symbol(symbol, left)
    requires forall i | symbol <= i < 0x100 :: probs[i] == PROB_INITIAL
    ensures EncodePlain(probs, 0, symbol, left, 0).ds == Zeros(left)
    decreases left
  {
    hide Adapt, Symbol, Pow2, NextBit, EncodePlain;
    if left == 0 {
      PlainNone(probs, symbol);
    } else {
      SymbolStep(symbol, left, 0);
      EncodePlainStep(probs, 0, symbol, left, 0);
      ZeroBit(left);
      ZeroByte(probs[symbol := Adapt(probs[symbol], 0)], 2 * symbol, left - 1);
    }
  }

  function Zeros(n: nat): seq<Decision> {
    if n == 0 then [] else [Adaptive(PROB_INITIAL, 0)] + Zeros(n - 1)
  }

  lemma PlainNone(probs: seq<Prob>, symbol: nat)
    requires 0x300 <= |probs| && Symbol(symbol, 0)
    ensures EncodePlain(probs, 0, symbol, 0, 0).ds == []
  {
  }

  lemma ZeroBit(left: nat)
    requires left > 0
    ensures NextBit(0, left) == 0
  {
  }

  // ---- the model ----

  /** What the model says about the next match: its probabilities, and which states it has not been in. */
  predicate Stage(m: Model, state: nat, match_: Prob, choice: Prob, low: Prob, slot: Prob) {
    && ModelOk(m) && m.pb == 0 && m.state == state < STATES
    && m.isMatch[POSITION_STATES * state] == match_ && m.isRep[state] == PROB_INITIAL
    && (forall k | Max(7, state + 1) <= k < STATES ::
          m.isMatch[POSITION_STATES * k] == PROB_INITIAL && m.isRep[k] == PROB_INITIAL)
    && m.length.choice0 == choice
    && (var t := m.length.low[0]; |t| == 8 && t[1] == low && t[3] == low && t[7] == low)
    && (var u := m.distance.slots[3];
       && |u| == 64
       && u[1] == slot && u[2] == slot && u[4] == slot && u[8] == slot && u[16] == slot && u[32] == slot
       && u[9] == PROB_INITIAL && u[19] == PROB_INITIAL && u[39] == PROB_INITIAL)
  }

  lemma NewMatchCode(m: Model, out: seq<byte>, offset: u32)
    requires ModelOk(m) && m.pb == 0
    ensures ChoiceOk(m.reps, New(offset, 7))
    ensures var len, dist := EncodeLength(m.length, 0, 7), EncodeDistance(m.distance, 7, offset);
            var e := Encode(m, out, New(offset, 7));
            && e.ds == [Adaptive(m.isMatch[POSITION_STATES * m.state], 1)]
                       + ([Adaptive(m.isRep[m.state], 0)] + (len.ds + dist.ds))
            && e.m == m.(isMatch := Flip(m.isMatch, POSITION_STATES * m.state, 1), isRep := Flip(m.isRep, m.state, 0),
                         reps := [offset] + m.reps[..3], state := AfterMatch(m.state),
                         length := len.m, distance := dist.m)
  {
    hide EncodeLength, EncodeDistance, LengthsOk, DistancesOk, Flip;
    assert PositionState(m, out) == 0;
  }

  function Thrice(p: Prob, b: bit): seq<Decision> {
    [Adaptive(p, b), Adaptive(p, b), Adaptive(p, b)]
  }

  /** A match of nine bytes up to its slot: a new match, the low lengths, 7. */
  function Opening(match_: Prob, choice: Prob, low: Prob): seq<Decision> {
    [Adaptive(match_, 1), Adaptive(PROB_INITIAL, 0), Adaptive(choice, 0)] + Thrice(low, 1)
  }

  /** The same up to and with slot 0, and slot 15. */
  function Near(match_: Prob, choice: Prob, low: Prob, slot: Prob): seq<Decision> {
    Opening(match_, choice, low) + (Thrice(slot, 0) + Thrice(slot, 0))
  }

  function Far(match_: Prob, choice: Prob, low: Prob, slot: Prob): seq<Decision> {
    Opening(match_, choice, low)
    + ([Adaptive(slot, 0), Adaptive(slot, 0), Adaptive(slot, 1)] + Thrice(PROB_INITIAL, 1))
  }

  lemma NineBytes(m: Model, out: seq<byte>, state: nat, match_: Prob, choice: Prob, low: Prob, slot: Prob, offset: u32)
    requires Stage(m, state, match_, choice, low, slot)
    ensures ChoiceOk(m.reps, New(offset, 7))
    ensures Encode(m, out, New(offset, 7)).ds == Opening(match_, choice, low) + EncodeDistance(m.distance, 7, offset).ds
  {
    hide Adapt, Encode, EncodeDistance, DistancesOk;
    NewMatchCode(m, out, offset);
    OnesOfThree(m.length.low[0]);
  }

  /** The decisions of such a match at distance 1, and the stage it leads to. */
  lemma StageMatch(m: Model, out: seq<byte>, state: nat, match_: Prob, choice: Prob, low: Prob, slot: Prob)
    requires Stage(m, state, match_, choice, low, slot) && state < 10
    ensures ChoiceOk(m.reps, New(0, 7))
    ensures Encode(m, out, New(0, 7)).ds == Near(match_, choice, low, slot)
    ensures Stage(Encode(m, out, New(0, 7)).m, AfterMatch(state), PROB_INITIAL, Adapt(choice, 0), Adapt(low, 1),
                  Adapt(slot, 0))
  {
    hide Adapt, Encode, Opening, Adapted, LengthsOk;
    NineBytes(m, out, state, match_, choice, low, slot, 0);
    SlotZero(m.distance.slots[3]);
    hide Near, Thrice;
    NextStage(m, out, state, match_, choice, low, slot);
  }

  lemma NextStage(m: Model, out: seq<byte>, state: nat, match_: Prob, choice: Prob, low: Prob, slot: Prob)
    requires Stage(m, state, match_, choice, low, slot) && state < 10
    ensures ChoiceOk(m.reps, New(0, 7))
    ensures Stage(Encode(m, out, New(0, 7)).m, AfterMatch(state), PROB_INITIAL, Adapt(choice, 0), Adapt(low, 1),
                  Adapt(slot, 0))
  {
    hide Adapt, Encode;
    NewMatchCode(m, out, 0);
    OnesOfThree(m.length.low[0]);
    SlotZero(m.distance.slots[3]);
  }

  /** The decisions of such a match at distance 193, with a direct bit behind its slot. */
  lemma StageFar(m: Model, out: seq<byte>, state: nat, match_: Prob, choice: Prob, low: Prob, slot: Prob)
    returns (rest: seq<Decision>)
    requires Stage(m, state, match_, choice, low, slot)
    ensures ChoiceOk(m.reps, New(192, 7)) && Encode(m, out, New(192, 7)).ds == Far(match_, choice, low, slot) + rest
    ensures rest != [] && rest[0].Direct?
  {
    hide Adapt, Encode, Opening, EncodeDistance, LengthsOk;
    NineBytes(m, out, state, match_, choice, low, slot, 192);
    SlotFifteen(m.distance.slots[3]);
    rest := FarDistance(m.distance);
  }

  lemma FarDistance(m: Distances) returns (rest: seq<Decision>)
    requires DistancesOk(m)
    ensures rest != [] && rest[0].Direct? && |m.slots[3]| == Pow2(6)
    ensures EncodeDistance(m, 7, 192).ds == TreeCode(m.slots[3], 6, 15).ds + rest
  {
    hide EncodeReverseFrom, Adapt, EncodeFrom;
    SixPowers();
    SlotUnique(192, 15, 0);
    rest := EncodeFooter(m.(slots := m.slots[3 := TreeCode(m.slots[3], 6, 15).tree]), 15, 0).ds;
  }

  /** A literal zero at the start of a stream. */
  lemma StageLiteral(m: Model)
    requires m == FreshModel(0, 0, 0)
    ensures ChoiceOk(m.reps, Lit(0))
    ensures Encode(m, [], Lit(0)).ds == [Adaptive(PROB_INITIAL, 0)] + Zeros(8)
    ensures Stage(Encode(m, [], Lit(0)).m, 0, Adapt(PROB_INITIAL, 0), PROB_INITIAL, PROB_INITIAL, PROB_INITIAL)
  {
    FreshStage(m);
    hide FreshModel, Stage;
    LiteralStage(m);
  }

  lemma LiteralStage(m: Model)
    requires Stage(m, 0, PROB_INITIAL, PROB_INITIAL, PROB_INITIAL, PROB_INITIAL) && m.lc == 0 && m.lp == 0
    requires |m.literal| == 0x300 && forall i | 0 <= i < 0x100 :: m.literal[i] == PROB_INITIAL
    ensures ChoiceOk(m.reps, Lit(0))
    ensures Encode(m, [], Lit(0)).ds == [Adaptive(PROB_INITIAL, 0)] + Zeros(8)
    ensures Stage(Encode(m, [], Lit(0)).m, 0, Adapt(PROB_INITIAL, 0), PROB_INITIAL, PROB_INITIAL, PROB_INITIAL)
  {
    hide Adapt, Encode, EncodePlain, LengthsOk, DistancesOk;
    LiteralCode(m);
    SymbolStart();
    ZeroByte(m.literal, 1, 8);
  }

  lemma FreshStage(m: Model)
    requires m == FreshModel(0, 0, 0)
    ensures Stage(m, 0, PROB_INITIAL, PROB_INITIAL, PROB_INITIAL, PROB_INITIAL) && m.lc == 0 && m.lp == 0
    ensures |m.literal| == 0x300 && forall i | 0 <= i < 0x100 :: m.literal[i] == PROB_INITIAL
  {
    SixPowers();
  }

  lemma LiteralCode(m: Model)
    requires ModelOk(m) && m.lc == 0 && m.lp == 0 && m.pb == 0 && m.state == 0 && |m.literal| == 0x300
    ensures Symbol(1, 8)
    ensures var e, l := Encode(m, [], Lit(0)), EncodePlain(m.literal, 0, 1, 8, 0);
            && e.ds == [Adaptive(m.isMatch[0], 0)] + l.ds
            && e.m == m.(isMatch := Flip(m.isMatch, 0, 0), literal := l.probs, state := 0)
  {
    hide LengthsOk, DistancesOk, Flip, EncodePlain, LiteralBase, MatchByte;
    SymbolStart();
    BaseZero();
    ZeroState(m);
  }

  lemma BaseZero()
    ensures LiteralBase(0, 0, 0, 0) == 0
  {
  }

  lemma ZeroState(m: Model)
    requires m.pb == 0
    ensures PositionState(m, []) == 0
  {
  }

  // ---- the stream ----

  lemma OpeningWidth(range: nat, match_: Prob, choice: Prob, low: Prob, tail: seq<Decision>)
    requires TOP <= range < 0x1_0000_0000
    ensures var r := NextThree(range, Adaptive(match_, 1), Adaptive(PROB_INITIAL, 0), Adaptive(choice, 0));
            Width(range, Opening(match_, choice, low) + tail)
            == Width(NextThree(r, Adaptive(low, 1), Adaptive(low, 1), Adaptive(low, 1)), tail)
  {
    hide NextThree;
    WidthAppend(range, Opening(match_, choice, low), tail);
    var head := [Adaptive(match_, 1), Adaptive(PROB_INITIAL, 0), Adaptive(choice, 0)];
    WidthAppend(range, head, Thrice(low, 1));
    WidthThree(range, Adaptive(match_, 1), Adaptive(PROB_INITIAL, 0), Adaptive(choice, 0));
    WidthThree(Width(range, head), Adaptive(low, 1), Adaptive(low, 1), Adaptive(low, 1));
  }

  lemma SlotWidth(range: nat, p: Prob, b: bit, q: Prob, c: bit)
    requires TOP <= range < 0x1_0000_0000
    ensures var r := NextThree(range, Adaptive(p, 0), Adaptive(p, 0), Adaptive(p, b));
            Width(range, [Adaptive(p, 0), Adaptive(p, 0), Adaptive(p, b)] + Thrice(q, c))
            == NextThree(r, Adaptive(q, c), Adaptive(q, c), Adaptive(q, c))
  {
    hide NextThree;
    var head := [Adaptive(p, 0), Adaptive(p, 0), Adaptive(p, b)];
    WidthAppend(range, head, Thrice(q, c));
    WidthThree(range, Adaptive(p, 0), Adaptive(p, 0), Adaptive(p, b));
    WidthThree(Width(range, head), Adaptive(q, c), Adaptive(q, c), Adaptive(q, c));
  }

  lemma LiteralSteps()
    ensures Next(FULL_RANGE, Adaptive(1024, 0)) == 0x7fff_fc00
    ensures Next(0x7fff_fc00, Adaptive(1024, 0)) == 0x3fff_fc00
    ensures Next(0x3fff_fc00, Adaptive(1024, 0)) == 0x1fff_fc00
    ensures Next(0x1fff_fc00, Adaptive(1024, 0)) == 0xfff_fc00
    ensures Next(0xfff_fc00, Adaptive(1024, 0)) == 0x7ff_fc00
    ensures Next(0x7ff_fc00, Adaptive(1024, 0)) == 0x3ff_fc00
    ensures Next(0x3ff_fc00, Adaptive(1024, 0)) == 0x1ff_fc00
    ensures Next(0x1ff_fc00, Adaptive(1024, 0)) == 0xfffc_0000
    ensures Next(0xfffc_0000, Adaptive(1024, 0)) == 0x7ffe_0000
  {
    hide Width;
  }

  lemma FirstSteps()
    ensures Next(0x7ffe_0000, Adaptive(1056, 1)) == 0x3dff_0800
    ensures Next(0x3dff_0800, Adaptive(1024, 0)) == 0x1eff_8400
    ensures Next(0x1eff_8400, Adaptive(1024, 0)) == 0xf7f_c000
    ensures Next(0xf7f_c000, Adaptive(1024, 1)) == 0x7bf_e000
    ensures Next(0x7bf_e000, Adaptive(1024, 1)) == 0x3df_f000
    ensures Next(0x3df_f000, Adaptive(1024, 1)) == 0x1ef_f800
    ensures Next(0x1ef_f800, Adaptive(1024, 0)) == 0xf7fc_0000
    ensures Next(0xf7fc_0000, Adaptive(1024, 0)) == 0x7bfe_0000
    ensures Next(0x7bfe_0000, Adaptive(1024, 0)) == 0x3dff_0000
    ensures Next(0x3dff_0000, Adaptive(1024, 0)) == 0x1eff_8000
    ensures Next(0x1eff_8000, Adaptive(1024, 0)) == 0xf7f_c000
    ensures Next(0xf7f_c000, Adaptive(1024, 0)) == 0x7bf_e000
  {
    hide Width;
  }

  lemma SecondSteps()
    ensures Next(0x7bf_e000, Adaptive(1024, 1)) == 0x3df_f000
    ensures Next(0x3df_f000, Adaptive(1024, 0)) == 0x1ef_f800
    ensures Next(0x1ef_f800, Adaptive(1056, 0)) == 0xffbb_e000
    ensures Next(0xffbb_e000, Adaptive(992, 1)) == 0x83dc_df80
    ensures Next(0x83dc_df80, Adaptive(992, 1)) == 0x43fd_e6e0
    ensures Next(0x43fd_e6e0, Adaptive(992, 1)) == 0x230e_ee60
    ensures Next(0x230e_ee60, Adaptive(1056, 0)) == 0x1213_afa0
    ensures Next(0x1213_afa0, Adaptive(1056, 0)) == 0x952_22a0
    ensures Next(0x952_22a0, Adaptive(1056, 0)) == 0x4ce_5880
    ensures Next(0x4ce_5880, Adaptive(1056, 0)) == 0x27a_6560
    ensures Next(0x27a_6560, Adaptive(1056, 0)) == 0x147_1980
    ensures Next(0x147_1980, Adaptive(1056, 0)) == 0xa8a8_6000
  {
    hide Width;
  }

  lemma ThirdSteps()
    ensures Next(0xa8a8_6000, Adaptive(1024, 1)) == 0x5454_3000
    ensures Next(0x5454_3000, Adaptive(1024, 0)) == 0x2a2a_1800
    ensures Next(0x2a2a_1800, Adaptive(1087, 0)) == 0x1661_177d
    ensures Next(0x1661_177d, Adaptive(961, 1)) == 0xbe0_cbdb
    ensures Next(0xbe0_cbdb, Adaptive(961, 1)) == 0x64d_f202
    ensures Next(0x64d_f202, Adaptive(961, 1)) == 0x358_9fc4
    ensures Next(0x358_9fc4, Adaptive(1087, 0)) == 0x1c6_a5ad
    ensures Next(0x1c6_a5ad, Adaptive(1087, 0)) == 0xf14c_2c00
    ensures Next(0xf14c_2c00, Adaptive(1087, 1)) == 0x7139_e045
    ensures Next(0x7139_e045, Adaptive(1024, 1)) == 0x389c_f045
    ensures Next(0x389c_f045, Adaptive(1024, 1)) == 0x1c4e_7845
    ensures Next(0x1c4e_7845, Adaptive(1024, 1)) == 0xe27_3c45
  {
    hide Width;
  }

  lemma LiteralWidth()
    ensures Width(FULL_RANGE, [Adaptive(PROB_INITIAL, 0)] + Zeros(8)) == 0x7ffe_0000
  {
    var z := Adaptive(PROB_INITIAL, 0);
    EightZeros();
    assert [z] + Zeros(8) == [z, z, z] + ([z, z, z] + [z, z, z]);
    LiteralSteps();
    hide Zeros, Width, Next;
    WidthThree(FULL_RANGE, z, z, z);
    WidthThree(0x1fff_fc00, z, z, z);
    WidthThree(0x3ff_fc00, z, z, z);
    WidthAppend(FULL_RANGE, [z, z, z], [z, z, z] + [z, z, z]);
    WidthAppend(0x1fff_fc00, [z, z, z], [z, z, z]);
  }

  lemma EightZeros()
    ensures var z := Adaptive(PROB_INITIAL, 0); Zeros(8) == [z, z] + ([z, z, z] + [z, z, z])
  {
  }

  lemma FirstWidth()
    ensures Width(0x7ffe_0000, Near(1056, 1024, 1024, 1024)) == 0x7bf_e000
  {
    FirstSteps();
    hide Next, Width;
    OpeningWidth(0x7ffe_0000, 1056, 1024, 1024, Thrice(1024, 0) + Thrice(1024, 0));
    SlotWidth(0x1ef_f800, 1024, 0, 1024, 0);
  }

  lemma SecondWidth()
    ensures Width(0x7bf_e000, Near(1024, 1056, 992, 1056)) == 0xa8a8_6000
  {
    SecondSteps();
    hide Next, Width;
    OpeningWidth(0x7bf_e000, 1024, 1056, 992, Thrice(1056, 0) + Thrice(1056, 0));
    SlotWidth(0x230e_ee60, 1056, 0, 1056, 0);
  }

  lemma ThirdWidth()
    ensures Width(0xa8a8_6000, Far(1024, 1087, 961, 1087)) == 0xe27_3c45
  {
    ThirdSteps();
    hide Next, Width;
    OpeningWidth(0xa8a8_6000, 1024, 1087, 961,
                 [Adaptive(1087, 0), Adaptive(1087, 0), Adaptive(1087, 1)] + Thrice(1024, 1));
    SlotWidth(0x358_9fc4, 1087, 1, 1024, 1);
  }

  /** The probabilities met on the way. */
  lemma Adaptations()
    ensures Adapt(1024, 0) == 1056 && Adapt(1056, 0) == 1087 && Adapt(1024, 1) == 992 && Adapt(992, 1) == 961
  {
  }

  /** A zero byte and two matches of nine bytes at distance 1. */
  const BEFORE: seq<Choice> := [Lit(0), New(0, 7), New(0, 7)]

  /** A match at distance 1 in front of a list. */
  lemma MatchFirst(m: Model, out: seq<byte>, w: Limits, cs: seq<Choice>,
                   state: nat, match_: Prob, choice: Prob, low: Prob, slot: Prob)
    requires Stage(m, state, match_, choice, low, slot) && state < 10
    requires w.dictionary >= 1 && w.start == 0 && out != []
    requires ChoiceOk(m.reps, New(0, 7))
    requires var e := Encode(m, out, New(0, 7)); AllAllowed(e.m.reps, Apply(Match(1, 9), out), w, cs)
    ensures AllAllowed(m.reps, out, w, [New(0, 7)] + cs)
    ensures var e := Encode(m, out, New(0, 7));
            Code(m, out, w, [New(0, 7)] + cs)
            == OperationCode(Near(match_, choice, low, slot) + Code(e.m, Apply(Match(1, 9), out), w, cs).ds,
                             Code(e.m, Apply(Match(1, 9), out), w, cs).m)
  {
    hide ModelOk, Encode, Near, Adapt, AllAllowed, Code, Expand;
    FourReps(m);
    ListFirst(m, out, w, New(0, 7), cs);
    StageMatch(m, out, state, match_, choice, low, slot);
  }

  lemma LastMatch(m: Model, out: seq<byte>, w: Limits)
    requires Stage(m, 7, 1024, 1056, 992, 1056) && w.dictionary >= 1 && w.start == 0 && out != []
    ensures |m.reps| == 4 && AllAllowed(m.reps, out, w, [New(0, 7)])
    ensures Code(m, out, w, [New(0, 7)]).ds == Near(1024, 1056, 992, 1056)
    ensures Stage(Code(m, out, w, [New(0, 7)]).m, 10, 1024, 1087, 961, 1087)
  {
    Adaptations();
    hide ModelOk, Encode, Near, Adapt, AllAllowed, Code, Expand, Apply, Stage;
    StageOk(m, 7, 1024, 1056, 992, 1056);
    StageMatch(m, out, 7, 1024, 1056, 992, 1056);
    NoneLeft(Encode(m, out, New(0, 7)).m, Apply(Match(1, 9), out), w);
    MatchFirst(m, out, w, [], 7, 1024, 1056, 992, 1056);
    assert [New(0, 7)] + [] == [New(0, 7)];
  }

  lemma TwoMatches(m: Model, out: seq<byte>, w: Limits)
    requires Stage(m, 0, 1056, 1024, 1024, 1024) && w.dictionary >= 1 && w.start == 0 && out != []
    ensures |m.reps| == 4 && AllAllowed(m.reps, out, w, [New(0, 7), New(0, 7)])
    ensures Code(m, out, w, [New(0, 7), New(0, 7)]).ds == Near(1056, 1024, 1024, 1024) + Near(1024, 1056, 992, 1056)
    ensures Stage(Code(m, out, w, [New(0, 7), New(0, 7)]).m, 10, 1024, 1087, 961, 1087)
  {
    Adaptations();
    hide ModelOk, Encode, Near, Adapt, AllAllowed, Code, Expand, Apply, Stage;
    StageOk(m, 0, 1056, 1024, 1024, 1024);
    StageMatch(m, out, 0, 1056, 1024, 1024, 1024);
    LastMatch(Encode(m, out, New(0, 7)).m, Apply(Match(1, 9), out), w);
    MatchFirst(m, out, w, [New(0, 7)], 0, 1056, 1024, 1024, 1024);
    assert [New(0, 7)] + [New(0, 7)] == [New(0, 7), New(0, 7)];
  }

  lemma StageOk(m: Model, state: nat, match_: Prob, choice: Prob, low: Prob, slot: Prob)
    requires Stage(m, state, match_, choice, low, slot)
    ensures ModelOk(m) && |m.reps| == 4
  {
  }

  lemma NoneLeft(m: Model, out: seq<byte>, w: Limits)
    requires ModelOk(m)
    ensures |m.reps| == 4 && AllAllowed(m.reps, out, w, []) && Code(m, out, w, []) == OperationCode([], m)
  {
  }

  /** The decisions of the three choices. */
  function BeforeDecisions(): seq<Decision> {
    [Adaptive(PROB_INITIAL, 0)] + Zeros(8) + (Near(1056, 1024, 1024, 1024) + Near(1024, 1056, 992, 1056))
  }

  lemma BeforeCode(w: Limits)
    requires w.dictionary >= 1 && w.start == 0
    ensures var m := FreshModel(0, 0, 0);
            && AllAllowed(m.reps, [], w, BEFORE) && Code(m, [], w, BEFORE).ds == BeforeDecisions()
            && Stage(Code(m, [], w, BEFORE).m, 10, 1024, 1087, 961, 1087)
  {
    Adaptations();
    hide ModelOk, Encode, Near, Adapt, AllAllowed, Code, Expand, Stage, Zeros, FreshModel;
    var m := FreshModel(0, 0, 0);
    FourReps(m);
    StageLiteral(m);
    TwoMatches(Encode(m, [], Lit(0)).m, [0], w);
    assert Apply(Literal(0), []) == [0];
    ListFirst(m, [], w, Lit(0), [New(0, 7), New(0, 7)]);
    assert BEFORE == [Lit(0)] + [New(0, 7), New(0, 7)];
  }

  /** After those choices, the interval of the twelve decisions before the first direct bit of a match at
      distance 193 has odd width. */
  lemma OddWidth()
    ensures Narrow(FULL_RANGE, BeforeDecisions() + Far(1024, 1087, 961, 1087)).width == 0xe27_3c45
  {
    hide Width, Near, Far, Zeros, Narrow, Next;
    var z := [Adaptive(PROB_INITIAL, 0)] + Zeros(8);
    var a, b, c := Near(1056, 1024, 1024, 1024), Near(1024, 1056, 992, 1056), Far(1024, 1087, 961, 1087);
    LiteralWidth();
    FirstWidth();
    SecondWidth();
    ThirdWidth();
    WidthAppend(FULL_RANGE, z, a + b);
    WidthAppend(0x7ffe_0000, a, b);
    WidthAppend(FULL_RANGE, z + (a + b), c);
    NarrowWidth(FULL_RANGE, BeforeDecisions() + c);
  }

  /** The decoder loses its code at that direct bit on some input: code and range are equal afterwards. */
  lemma OddUnitReached(w: Limits)
    requires w.dictionary >= 1 && w.start == 0
    ensures var m := FreshModel(0, 0, 0);
            && AllAllowed(m.reps, [], w, BEFORE)
            && var e, out := Code(m, [], w, BEFORE), Expand(m.reps, [], w, BEFORE);
               && |e.m.reps| == 4 && ChoiceOk(e.m.reps, New(192, 7))
               && var ds := Encode(e.m, out, New(192, 7)).ds;
                  |ds| > 12 && ds[12].Direct? && exists input :: Breaks(input, e.ds + ds[..12])
  {
    hide ModelOk, Encode, Near, Adapt, AllAllowed, Code, Expand, Stage, FreshModel, BeforeDecisions, Breaks, Narrow;
    BeforeCode(w);
    var m := FreshModel(0, 0, 0);
    FourReps(m);
    var e, out := Code(m, [], w, BEFORE), Expand(m.reps, [], w, BEFORE);
    StageOk(e.m, 10, 1024, 1087, 961, 1087);
    var rest := StageFar(e.m, out, 10, 1024, 1087, 961, 1087);
    var ds := Encode(e.m, out, New(192, 7)).ds;
    assert ds[..12] == Far(1024, 1087, 961, 1087) && ds[12] == rest[0];
    OddWidth();
    OddUnitLost(BeforeDecisions() + Far(1024, 1087, 961, 1087));
  }
}
