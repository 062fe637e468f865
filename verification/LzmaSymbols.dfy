/** Lengths, distances and literals as the LZMA decoder reads them. */
module LzmaSymbols {
  import opened Prelude
  import opened LzmaRange
  import opened LzmaTrees

  const POSITION_STATES: nat := 16
  const LENGTH_STATES: nat := 4
  const START_MODEL: nat := 4
  const END_MODEL: nat := 14
  const ALIGN_BITS: nat := 4

  function Fresh(n: nat): (s: seq<Prob>)
    ensures |s| == n && forall i | 0 <= i < n :: s[i] == PROB_INITIAL
  {
    seq(n, i => PROB_INITIAL)
  }

  // ---- lengths ----

  datatype Lengths = Lengths(choice0: Prob, choice1: Prob, low: seq<Tree>, middle: seq<Tree>, high: Tree)

  predicate LengthsOk(m: Lengths) {
    && |m.low| == POSITION_STATES && |m.middle| == POSITION_STATES && |m.high| == Pow2(8)
    && (forall i | 0 <= i < POSITION_STATES :: |m.low[i]| == Pow2(3) && |m.middle[i]| == Pow2(3))
  }

  function FreshLengths(): (m: Lengths)
    ensures LengthsOk(m)
  {
    Lengths(PROB_INITIAL, PROB_INITIAL,
            seq(POSITION_STATES, i => Fresh(Pow2(3))), seq(POSITION_STATES, i => Fresh(Pow2(3))), Fresh(Pow2(8)))
  }

  datatype LengthRead = LengthRead(value: nat, m: Lengths, next: Registers)

  function TreeValue(t: Tree, bits: nat, r: Registers): (d: Result<Decoded>)
    requires |t| == Pow2(bits) && r.range >= TOP
    ensures d.Ok? ==> d.value.next.range >= TOP && |d.value.tree| == |t| && d.value.value < Pow2(bits)
  {
    FitsRoot(bits);
    var d :- DecodeFrom(t, 1, bits, r);
    DecodeAbove(t, 1, bits, r);
    Ok(d.(value := d.value - Pow2(bits)))
  }

  function TreeCode(t: Tree, bits: nat, v: nat): (c: Coded)
    requires |t| == Pow2(bits) && v < Pow2(bits)
    ensures |c.tree| == |t|
  {
    FitsRoot(bits);
    EncodeFrom(t, 1, bits, v)
  }

  lemma TreeValueInverse(t: Tree, bits: nat, v: nat, r: Registers)
    requires |t| == Pow2(bits) && v < Pow2(bits) && r.range >= TOP
    ensures var c, d := TreeCode(t, bits, v), TreeValue(t, bits, r);
            && (Replay(r, c.ds).Some? <==> d.Ok? && d.value.value == v)
            && (Replay(r, c.ds).Some? ==> d.value == Decoded(v, c.tree, Replay(r, c.ds).value))
  {
    hide DecodeFrom, EncodeFrom, Replay;
    FitsRoot(bits);
    TreeInverse(t, 1, bits, v, r);
    if DecodeFrom(t, 1, bits, r).Ok? { DecodeAbove(t, 1, bits, r); }
  }

  /** `LengthDecoder::decode`: the offset 0 to 271 of a match length above its minimum. */
  function DecodeLength(m: Lengths, ps: nat, r: Registers): (d: Result<LengthRead>)
    requires LengthsOk(m) && ps < POSITION_STATES && r.range >= TOP
    ensures d.Ok? ==> LengthsOk(d.value.m) && d.value.next.range >= TOP && d.value.value < 272
  {
    var (b0, r0) :- BitStep(r, m.choice0);
    var m0 := m.(choice0 := Adapt(m.choice0, b0));
    if b0 == 0 then
      var t :- TreeValue(m.low[ps], 3, r0);
      Ok(LengthRead(t.value, m0.(low := m.low[ps := t.tree]), t.next))
    else
      var (b1, r1) :- BitStep(r0, m.choice1);
      var m1 := m0.(choice1 := Adapt(m.choice1, b1));
      if b1 == 0 then
        var t :- TreeValue(m.middle[ps], 3, r1);
        Ok(LengthRead(t.value + 8, m1.(middle := m.middle[ps := t.tree]), t.next))
      else
        var t :- TreeValue(m.high, 8, r1);
        Ok(LengthRead(t.value + 16, m1.(high := t.tree), t.next))
  }

  datatype LengthCode = LengthCode(ds: seq<Decision>, m: Lengths)

  function EncodeLength(m: Lengths, ps: nat, v: nat): (c: LengthCode)
    requires LengthsOk(m) && ps < POSITION_STATES && v < 272
    ensures LengthsOk(c.m)
  {
    if v < 8 then
      var t := TreeCode(m.low[ps], 3, v);
      LengthCode([Adaptive(m.choice0, 0)] + t.ds, m.(choice0 := Adapt(m.choice0, 0), low := m.low[ps := t.tree]))
    else
      var m0 := m.(choice0 := Adapt(m.choice0, 1));
      if v < 16 then
        var t := TreeCode(m.middle[ps], 3, v - 8);
        LengthCode([Adaptive(m.choice0, 1)] + ([Adaptive(m.choice1, 0)] + t.ds),
                   m0.(choice1 := Adapt(m.choice1, 0), middle := m.middle[ps := t.tree]))
      else
        var t := TreeCode(m.high, 8, v - 16);
        LengthCode([Adaptive(m.choice0, 1)] + ([Adaptive(m.choice1, 1)] + t.ds),
                   m0.(choice1 := Adapt(m.choice1, 1), high := t.tree))
  }

  /** A length decodes from exactly the decisions that encode it. */
  lemma LengthInverse(m: Lengths, ps: nat, v: nat, r: Registers)
    requires LengthsOk(m) && ps < POSITION_STATES && v < 272 && r.range >= TOP
    ensures var c, d := EncodeLength(m, ps, v), DecodeLength(m, ps, r);
            && (Replay(r, c.ds).Some? <==> d.Ok? && d.value.value == v)
            && (Replay(r, c.ds).Some? ==> d.value == LengthRead(v, c.m, Replay(r, c.ds).value))
  {
    hide BitStep, Adapt, Replay, TreeValue, TreeCode;
    var x0 := BitStep(r, m.choice0);
    if v < 8 {
      ReplayBit(r, m.choice0, 0, TreeCode(m.low[ps], 3, v).ds);
      if x0.Ok? { TreeValueInverse(m.low[ps], 3, v, x0.value.1); }
    } else {
      var b1: bit, t, bits, w := if v < 16 then 0 else 1, if v < 16 then m.middle[ps] else m.high,
                                 if v < 16 then 3 else 8, if v < 16 then v - 8 else v - 16;
      var code := TreeCode(t, bits, w);
      ReplayBit(r, m.choice0, 1, [Adaptive(m.choice1, b1)] + code.ds);
      if x0.Ok? {
        ReplayBit(x0.value.1, m.choice1, b1, code.ds);
        var x1 := BitStep(x0.value.1, m.choice1);
        if x1.Ok? { TreeValueInverse(t, bits, w, x1.value.1); }
      }
    }
  }

  // ---- distances ----

  datatype Distances = Distances(slots: seq<Tree>, models: seq<Tree>, align: Tree)

  /** Bits below the two leading ones a slot fixes. */
  function FooterBits(slot: nat): nat
    requires START_MODEL <= slot
  {
    slot / 2 - 1
  }

  function Base(slot: nat): nat
    requires START_MODEL <= slot
  {
    (2 + slot % 2) * Pow2(FooterBits(slot))
  }

  predicate DistancesOk(m: Distances) {
    && |m.slots| == LENGTH_STATES && (forall i | 0 <= i < LENGTH_STATES :: |m.slots[i]| == Pow2(6))
    && |m.models| == END_MODEL - START_MODEL
    && (forall i | 0 <= i < END_MODEL - START_MODEL :: |m.models[i]| == Pow2(FooterBits(i + START_MODEL)))
    && |m.align| == Pow2(ALIGN_BITS)
  }

  function FreshFooter(i: nat): (t: Tree)
    ensures |t| == Pow2(FooterBits(i + START_MODEL))
  {
    Fresh(Pow2(FooterBits(i + START_MODEL)))
  }

  function FreshDistances(): (m: Distances)
    ensures DistancesOk(m)
  {
    Distances(seq(LENGTH_STATES, i => Fresh(Pow2(6))),
              seq(END_MODEL - START_MODEL, i requires 0 <= i < END_MODEL - START_MODEL => FreshFooter(i)),
              Fresh(Pow2(ALIGN_BITS)))
  }

  /** Consecutive slots are adjacent: where one ends the next begins. */
  lemma BaseNext(slot: nat)
    requires START_MODEL <= slot
    ensures Base(slot) + Pow2(FooterBits(slot)) == Base(slot + 1)
  {
    var p := Pow2(FooterBits(slot));
    if slot % 2 == 0 {
      assert FooterBits(slot + 1) == FooterBits(slot);
      assert 2 * p + p == 3 * p;
    } else {
      assert FooterBits(slot + 1) == FooterBits(slot) + 1;
      assert 3 * p + p == 2 * (2 * p);
    }
  }

  lemma {:induction false} BaseOrder(a: nat, b: nat)
    requires START_MODEL <= a < b
    ensures Base(a) + Pow2(FooterBits(a)) <= Base(b)
    decreases b - a
  {
    BaseNext(a);
    if a + 1 < b { BaseOrder(a + 1, b); }
  }

  lemma LastBase()
    ensures Base(64) == 0x1_0000_0000 && Base(START_MODEL) == 4
  {
    assert Pow2(1) == 2 && Pow2(2) == 4 && Pow2(3) == 8;
    Pow2Sum(8, 8);
    Pow2Sum(16, 15);
    Pow2Sum(8, 7);
    assert Pow2(8) == 0x100 && Pow2(7) == 0x80;
  }

  /** The slot of a distance: the last one that starts at or below it. */
  function SlotFrom(slot: nat, d: nat): (s: nat)
    requires START_MODEL <= slot <= 64 && Base(slot) <= d < Base(64)
    ensures slot <= s < 64 && Base(s) <= d < Base(s + 1)
    decreases 64 - slot
  {
    if d < Base(slot + 1) then slot else SlotFrom(slot + 1, d)
  }

  function SlotOf(d: u32): (slot: nat)
    ensures slot < 64
    ensures slot < START_MODEL <==> d < 4
    ensures d < 4 ==> slot == d
    ensures d >= 4 ==> Base(slot) <= d < Base(slot) + Pow2(FooterBits(slot))
  {
    if d < 4 then d
    else
      LastBase();
      var slot := SlotFrom(START_MODEL, d);
      BaseNext(slot);
      slot
  }

  /** Slots and footers number the 32-bit distances without gap, overlap or overflow. */
  lemma SlotUnique(d: nat, slot: nat, footer: nat)
    requires START_MODEL <= slot < 64 && footer < Pow2(FooterBits(slot)) && d == Base(slot) + footer
    ensures 4 <= d < 0x1_0000_0000 && SlotOf(d) == slot
  {
    LastBase();
    BaseOrder(slot, 64);
    if START_MODEL < slot { BaseOrder(START_MODEL, slot); }
    var other := SlotOf(d);
    if other < slot { BaseOrder(other, slot); }
    if slot < other { BaseOrder(slot, other); }
  }

  datatype DistanceRead = DistanceRead(value: u32, m: Distances, next: Registers)

  /** `DistanceDecoder::decode`: the distance less one; all ones marks the end of the stream. */
  function DecodeDistance(m: Distances, length: nat, r: Registers): (d: Result<DistanceRead>)
    requires DistancesOk(m) && r.range >= TOP
    ensures d.Ok? ==> DistancesOk(d.value.m) && d.value.next.range >= TOP
  {
    var ls := Min(length, LENGTH_STATES - 1);
    SixBits();
    var slot :- TreeValue(m.slots[ls], 6, r);
    var m0 := m.(slots := m.slots[ls := slot.tree]);
    if slot.value < START_MODEL then Ok(DistanceRead(slot.value, m0, slot.next))
    else DecodeFooter(m0, slot.value, slot.next)
  }

  /** The bits below the slot: modelled ones, or direct ones above four modelled ones. */
  function DecodeFooter(m: Distances, slot: nat, r: Registers): (d: Result<DistanceRead>)
    requires DistancesOk(m) && START_MODEL <= slot < 64 && r.range >= TOP
    ensures d.Ok? ==> DistancesOk(d.value.m) && d.value.next.range >= TOP
  {
    var bits := FooterBits(slot);
    if slot < END_MODEL then
      FitsRoot(bits);
      var k := slot - START_MODEL;
      var footer :- DecodeReverseFrom(m.models[k], 1, bits, r);
      SlotUnique(Base(slot) + footer.value, slot, footer.value);
      Ok(DistanceRead(Base(slot) + footer.value, m.(models := m.models[k := footer.tree]), footer.next))
    else
      var (direct, r1) :- DecodeDirectBits(bits - ALIGN_BITS, r);
      FitsRoot(ALIGN_BITS);
      var align :- DecodeReverseFrom(m.align, 1, ALIGN_BITS, r1);
      FooterParts(bits, direct, align.value);
      SlotUnique(Base(slot) + 16 * direct + align.value, slot, 16 * direct + align.value);
      Ok(DistanceRead(Base(slot) + 16 * direct + align.value, m.(align := align.tree), align.next))
  }

  lemma FooterParts(bits: nat, direct: nat, align: nat)
    requires ALIGN_BITS <= bits && direct < Pow2(bits - ALIGN_BITS) && align < Pow2(ALIGN_BITS)
    ensures 16 * direct + align < Pow2(bits)
  {
    assert Pow2(ALIGN_BITS) == 16;
    Pow2Sum(ALIGN_BITS, bits - ALIGN_BITS);
  }

  datatype DistanceCode = DistanceCode(ds: seq<Decision>, m: Distances)

  function EncodeDistance(m: Distances, length: nat, d: u32): (c: DistanceCode)
    requires DistancesOk(m)
    ensures DistancesOk(c.m)
  {
    var ls := Min(length, LENGTH_STATES - 1);
    SixBits();
    var t := TreeCode(m.slots[ls], 6, SlotOf(d));
    var m0 := m.(slots := m.slots[ls := t.tree]);
    if SlotOf(d) < START_MODEL then DistanceCode(t.ds, m0)
    else
      var c := EncodeFooter(m0, SlotOf(d), d - Base(SlotOf(d)));
      DistanceCode(t.ds + c.ds, c.m)
  }

  function EncodeFooter(m: Distances, slot: nat, footer: nat): (c: DistanceCode)
    requires DistancesOk(m) && START_MODEL <= slot < 64 && footer < Pow2(FooterBits(slot))
    ensures DistancesOk(c.m)
  {
    var bits := FooterBits(slot);
    FitsRoot(bits);
    if slot < END_MODEL then
      var k := slot - START_MODEL;
      var c := EncodeReverseFrom(m.models[k], 1, bits, footer);
      DistanceCode(c.ds, m.(models := m.models[k := c.tree]))
    else
      FooterSplit(bits, footer);
      FitsRoot(ALIGN_BITS);
      var c := EncodeReverseFrom(m.align, 1, ALIGN_BITS, footer % 16);
      DistanceCode(EncodeDirectBits(bits - ALIGN_BITS, footer / 16) + c.ds, m.(align := c.tree))
  }

  lemma FooterSplit(bits: nat, footer: nat)
    requires ALIGN_BITS <= bits && footer < Pow2(bits)
    ensures footer / 16 < Pow2(bits - ALIGN_BITS) && footer % 16 < Pow2(ALIGN_BITS)
  {
    assert Pow2(ALIGN_BITS) == 16;
    Pow2Sum(ALIGN_BITS, bits - ALIGN_BITS);
  }

  /** The footer of a slot decodes from exactly the decisions that encode it. */
  lemma FooterInverse(m: Distances, slot: nat, footer: nat, r: Registers)
    requires DistancesOk(m) && START_MODEL <= slot < 64 && footer < Pow2(FooterBits(slot)) && r.range >= TOP
    ensures var c, d := EncodeFooter(m, slot, footer), DecodeFooter(m, slot, r);
            && (Replay(r, c.ds).Some? <==> d.Ok? && d.value.value == Base(slot) + footer)
            && (Replay(r, c.ds).Some? ==> d.value.m == c.m && d.value.next == Replay(r, c.ds).value)
  {
    hide Replay, DecodeReverseFrom, EncodeReverseFrom, DecodeDirectBits, EncodeDirectBits, Base, Pow2, Fits;
    var bits := FooterBits(slot);
    if slot < END_MODEL {
      FitsRoot(bits);
      ReverseInverse(m.models[slot - START_MODEL], 1, bits, footer, r);
    } else {
      FooterSplit(bits, footer);
      FitsRoot(ALIGN_BITS);
      var direct := EncodeDirectBits(bits - ALIGN_BITS, footer / 16);
      ReplayAppend(r, direct, EncodeReverseFrom(m.align, 1, ALIGN_BITS, footer % 16).ds);
      DirectInverse(bits - ALIGN_BITS, footer / 16, r);
      var d := DecodeDirectBits(bits - ALIGN_BITS, r);
      if d.Ok? {
        ReverseInverse(m.align, 1, ALIGN_BITS, footer % 16, d.value.1);
        AlignBelow(m.align, d.value.1);
      }
    }
  }

  lemma AlignBelow(t: Tree, r: Registers)
    requires |t| == Pow2(ALIGN_BITS) && r.range >= TOP
    ensures Fits(|t|, 1, ALIGN_BITS)
    ensures DecodeReverseFrom(t, 1, ALIGN_BITS, r).Ok? ==> DecodeReverseFrom(t, 1, ALIGN_BITS, r).value.value < 16
  {
    hide DecodeReverseFrom;
    FitsRoot(ALIGN_BITS);
    assert Pow2(ALIGN_BITS) == 16;
  }

  /** A slot with its footer gives a distance of that slot. */
  lemma FooterSlot(m: Distances, slot: nat, r: Registers)
    requires DistancesOk(m) && START_MODEL <= slot < 64 && r.range >= TOP && DecodeFooter(m, slot, r).Ok?
    ensures SlotOf(DecodeFooter(m, slot, r).value.value) == slot
  {
    hide DecodeReverseFrom, DecodeDirectBits, Base, Pow2, Fits, SlotOf;
    var bits, d := FooterBits(slot), DecodeFooter(m, slot, r).value;
    FitsRoot(bits);
    if slot < END_MODEL {
      var footer := DecodeReverseFrom(m.models[slot - START_MODEL], 1, bits, r).value;
      SlotUnique(d.value, slot, footer.value);
    } else {
      var (direct, r1) := DecodeDirectBits(bits - ALIGN_BITS, r).value;
      FitsRoot(ALIGN_BITS);
      var align := DecodeReverseFrom(m.align, 1, ALIGN_BITS, r1).value;
      FooterParts(bits, direct, align.value);
      SlotUnique(d.value, slot, 16 * direct + align.value);
    }
  }

  /** Every 32-bit distance decodes from exactly the decisions that encode it. */
  lemma DistanceInverse(m: Distances, length: nat, d: u32, r: Registers)
    requires DistancesOk(m) && r.range >= TOP
    ensures var c, x := EncodeDistance(m, length, d), DecodeDistance(m, length, r);
            && (Replay(r, c.ds).Some? <==> x.Ok? && x.value.value == d)
            && (Replay(r, c.ds).Some? ==> x.value == DistanceRead(d, c.m, Replay(r, c.ds).value))
  {
    hide Replay, TreeValue, TreeCode, DecodeFooter, EncodeFooter, Base, Pow2, FooterBits;
    var ls := Min(length, LENGTH_STATES - 1);
    var slot := SlotOf(d);
    hide SlotOf;
    SixBits();
    var t, x := TreeCode(m.slots[ls], 6, slot), TreeValue(m.slots[ls], 6, r);
    TreeValueInverse(m.slots[ls], 6, slot, r);
    if slot >= START_MODEL {
      var m0 := m.(slots := m.slots[ls := t.tree]);
      ReplayAppend(r, t.ds, EncodeFooter(m0, slot, d - Base(slot)).ds);
      if Replay(r, t.ds).Some? {
        FooterInverse(m0, slot, d - Base(slot), Replay(r, t.ds).value);
      }
    }
    if x.Ok? && x.value.value >= START_MODEL {
      var m0 := m.(slots := m.slots[ls := x.value.tree]);
      if DecodeFooter(m0, x.value.value, x.value.next).Ok? {
        FooterSlot(m0, x.value.value, x.value.next);
      }
    }
  }

  lemma SixBits()
    ensures Pow2(6) == 64
  {
  }

  // ---- literals ----

  /** The block of 768 probabilities that position and previous byte select. */
  function LiteralBase(lc: nat, lp: nat, position: nat, previous: byte): (base: nat)
    requires lc + lp <= 4
    ensures base % 0x300 == 0 && base + 0x300 <= 0x300 * Pow2(lc + lp)
  {
    LiteralState(lc, lp, position, previous);
    0x300 * (position % Pow2(lp) * Pow2(lc) + previous / Pow2(8 - lc))
  }

  lemma LiteralState(lc: nat, lp: nat, position: nat, previous: byte)
    requires lc + lp <= 4
    ensures 0 <= position % Pow2(lp) * Pow2(lc) + previous / Pow2(8 - lc) < Pow2(lc + lp)
  {
    var mask, p := position % Pow2(lp), Pow2(lc);
    Pow2Sum(lc, 8 - lc);
    assert Pow2(8) == 0x100;
    QuotientBelow(previous, Pow2(8 - lc), p);
    Pow2Sum(lp, lc);
    MulAtMost(mask + 1, Pow2(lp), p);
    assert (mask + 1) * p == mask * p + p;
  }

  datatype LiteralRead = LiteralRead(value: byte, probs: seq<Prob>, next: Registers)
  datatype LiteralCode = LiteralCode(ds: seq<Decision>, probs: seq<Prob>)

  /** `symbol` has its leading one and all but `left` of its eight bits. */
  predicate Symbol(symbol: nat, left: nat) {
    left <= 8 && Pow2(8 - left) <= symbol < 2 * Pow2(8 - left)
  }

  lemma SymbolStep(symbol: nat, left: nat, b: bit)
    requires Symbol(symbol, left) && left > 0
    ensures 1 <= symbol < 0x100 && Symbol(2 * symbol + b, left - 1)
  {
    Pow2Order(8 - left, 7);
    assert Pow2(7) == 0x80;
  }

  lemma SymbolDone(symbol: nat)
    requires Symbol(symbol, 0)
    ensures 0x100 <= symbol < 0x200
  {
    assert Pow2(8) == 0x100;
  }

  /** Bits of a literal without a byte to compare it with. */
  function DecodePlain(probs: seq<Prob>, base: nat, symbol: nat, left: nat, r: Registers): (d: Result<LiteralRead>)
    requires base + 0x300 <= |probs| && Symbol(symbol, left) && r.range >= TOP
    ensures d.Ok? ==> d.value.next.range >= TOP && |d.value.probs| == |probs|
    decreases left
  {
    if left == 0 then
      SymbolDone(symbol);
      Ok(LiteralRead(symbol - 0x100, probs, r))
    else
      SymbolStep(symbol, left, 0);
      SymbolStep(symbol, left, 1);
      var (b, n) :- BitStep(r, probs[base + symbol]);
      DecodePlain(probs[base + symbol := Adapt(probs[base + symbol], b)], base, 2 * symbol + b, left - 1, n)
  }

  /** Where a literal is read against the byte at the last match distance. */
  function MatchedIndex(matched: nat, symbol: nat): nat {
    0x100 * (1 + matched / 0x80 % 2) + symbol
  }

  function DecodeMatched(probs: seq<Prob>, base: nat, symbol: nat, left: nat, matched: nat, r: Registers)
    : (d: Result<LiteralRead>)
    requires base + 0x300 <= |probs| && Symbol(symbol, left) && left > 0 && r.range >= TOP
    ensures d.Ok? ==> d.value.next.range >= TOP && |d.value.probs| == |probs|
    decreases left
  {
    SymbolStep(symbol, left, 0);
    SymbolStep(symbol, left, 1);
    var index := base + MatchedIndex(matched, symbol);
    var (b, n) :- BitStep(r, probs[index]);
    var probs' := probs[index := Adapt(probs[index], b)];
    if matched / 0x80 % 2 != b || left == 1 then DecodePlain(probs', base, 2 * symbol + b, left - 1, n)
    else DecodeMatched(probs', base, 2 * symbol + b, left - 1, 2 * matched, n)
  }

  function DecodeLiteral(probs: seq<Prob>, base: nat, state: nat, matched: byte, r: Registers)
    : (d: Result<LiteralRead>)
    requires base + 0x300 <= |probs| && r.range >= TOP
    ensures d.Ok? ==> d.value.next.range >= TOP && |d.value.probs| == |probs|
  {
    if state >= 7 then DecodeMatched(probs, base, 1, 8, matched, r) else DecodePlain(probs, base, 1, 8, r)
  }

  /** The bit of `v` that comes next when `left` remain. */
  function NextBit(v: nat, left: nat): bit
    requires left > 0
  {
    v / Pow2(left - 1) % 2
  }

  function EncodePlain(probs: seq<Prob>, base: nat, symbol: nat, left: nat, v: byte): (c: LiteralCode)
    requires base + 0x300 <= |probs| && Symbol(symbol, left)
    ensures |c.probs| == |probs|
    decreases left
  {
    if left == 0 then LiteralCode([], probs)
    else
      var b := NextBit(v, left);
      SymbolStep(symbol, left, b);
      var p := probs[base + symbol];
      var tail := EncodePlain(probs[base + symbol := Adapt(p, b)], base, 2 * symbol + b, left - 1, v);
      LiteralCode([Adaptive(p, b)] + tail.ds, tail.probs)
  }

  function EncodeMatched(probs: seq<Prob>, base: nat, symbol: nat, left: nat, matched: nat, v: byte)
    : (c: LiteralCode)
    requires base + 0x300 <= |probs| && Symbol(symbol, left) && left > 0
    ensures |c.probs| == |probs|
    decreases left
  {
    var b := NextBit(v, left);
    SymbolStep(symbol, left, b);
    var index := base + MatchedIndex(matched, symbol);
    var p := probs[index];
    var probs' := probs[index := Adapt(p, b)];
    var tail := if matched / 0x80 % 2 != b || left == 1 then EncodePlain(probs', base, 2 * symbol + b, left - 1, v)
                else EncodeMatched(probs', base, 2 * symbol + b, left - 1, 2 * matched, v);
    LiteralCode([Adaptive(p, b)] + tail.ds, tail.probs)
  }

  function EncodeLiteral(probs: seq<Prob>, base: nat, state: nat, matched: byte, v: byte): (c: LiteralCode)
    requires base + 0x300 <= |probs|
    ensures |c.probs| == |probs|
  {
    if state >= 7 then EncodeMatched(probs, base, 1, 8, matched, v) else EncodePlain(probs, base, 1, 8, v)
  }

  /** The bits of `v` already in `symbol`. */
  predicate Agrees(symbol: nat, left: nat, v: byte) {
    left <= 8 && symbol == Pow2(8 - left) + v / Pow2(left)
  }

  lemma AgreesStep(symbol: nat, left: nat, v: byte)
    requires Agrees(symbol, left, v) && left > 0
    ensures Agrees(2 * symbol + NextBit(v, left), left - 1, v)
  {
    var q: nat, p := v, Pow2(left - 1);
    QuotientHalves(q, p);
  }

  lemma EncodePlainStep(probs: seq<Prob>, base: nat, symbol: nat, left: nat, v: byte)
    requires base + 0x300 <= |probs| && Symbol(symbol, left) && left > 0
    ensures symbol < 0x100 && Symbol(2 * symbol + NextBit(v, left), left - 1)
    ensures var b := NextBit(v, left);
            var p := probs[base + symbol];
            var tail := EncodePlain(probs[base + symbol := Adapt(p, b)], base, 2 * symbol + b, left - 1, v);
            EncodePlain(probs, base, symbol, left, v) == LiteralCode([Adaptive(p, b)] + tail.ds, tail.probs)
  {
    hide Adapt, NextBit, Symbol, Pow2;
    SymbolStep(symbol, left, NextBit(v, left));
  }

  lemma DecodePlainStep(probs: seq<Prob>, base: nat, symbol: nat, left: nat, r: Registers)
    requires base + 0x300 <= |probs| && Symbol(symbol, left) && left > 0 && r.range >= TOP
    ensures symbol < 0x100 && Symbol(2 * symbol, left - 1) && Symbol(2 * symbol + 1, left - 1)
    ensures var x, d := BitStep(r, probs[base + symbol]), DecodePlain(probs, base, symbol, left, r);
            && (x.Err? ==> d.Err?)
            && (x.Ok? ==>
                  d == DecodePlain(probs[base + symbol := Adapt(probs[base + symbol], x.value.0)], base,
                                   2 * symbol + x.value.0, left - 1, x.value.1))
  {
    hide BitStep, Adapt, Symbol, Pow2;
    SymbolStep(symbol, left, 0);
    SymbolStep(symbol, left, 1);
  }

  /** Whatever is decoded starts with the bits already read. */
  lemma {:induction false} PlainAgrees(probs: seq<Prob>, base: nat, symbol: nat, left: nat, r: Registers)
    requires base + 0x300 <= |probs| && Symbol(symbol, left) && r.range >= TOP
    requires DecodePlain(probs, base, symbol, left, r).Ok?
    ensures Agrees(symbol, left, DecodePlain(probs, base, symbol, left, r).value.value)
    decreases left
  {
    hide BitStep, Adapt, NextBit, Symbol, Agrees, Pow2, DecodePlain;
    if left == 0 {
      PlainStops(probs, base, symbol, r);
      DoneAgrees(symbol);
    } else {
      DecodePlainStep(probs, base, symbol, left, r);
      var p := probs[base + symbol];
      var (b, n) := BitStep(r, p).value;
      PlainAgrees(probs[base + symbol := Adapt(p, b)], base, 2 * symbol + b, left - 1, n);
      OneSymbol(symbol, left, b, DecodePlain(probs, base, symbol, left, r).value.value);
    }
  }

  lemma PlainStops(probs: seq<Prob>, base: nat, symbol: nat, r: Registers)
    requires base + 0x300 <= |probs| && Symbol(symbol, 0) && r.range >= TOP
    ensures 0x100 <= symbol < 0x200
    ensures DecodePlain(probs, base, symbol, 0, r) == Ok(LiteralRead(symbol - 0x100, probs, r))
  {
    SymbolDone(symbol);
  }

  lemma DoneAgrees(symbol: nat)
    requires 0x100 <= symbol < 0x200
    ensures Agrees(symbol, 0, symbol - 0x100)
  {
    assert Pow2(8) == 0x100;
  }

  lemma {:induction false} PlainInverse(probs: seq<Prob>, base: nat, symbol: nat, left: nat, v: byte, r: Registers)
    requires base + 0x300 <= |probs| && Symbol(symbol, left) && Agrees(symbol, left, v) && r.range >= TOP
    ensures var c, d := EncodePlain(probs, base, symbol, left, v), DecodePlain(probs, base, symbol, left, r);
            && (Replay(r, c.ds).Some? <==> d.Ok? && d.value.value == v)
            && (Replay(r, c.ds).Some? ==> d.value == LiteralRead(v, c.probs, Replay(r, c.ds).value))
    decreases left
  {
    hide BitStep, Adapt, NextBit, Symbol, Agrees, Replay, Pow2, EncodePlain, DecodePlain;
    if left == 0 {
      PlainDone(probs, base, symbol, v, r);
    } else {
      EncodePlainStep(probs, base, symbol, left, v);
      DecodePlainStep(probs, base, symbol, left, r);
      var b := NextBit(v, left);
      AgreesStep(symbol, left, v);
      var p := probs[base + symbol];
      var probs' := probs[base + symbol := Adapt(p, b)];
      ReplayBit(r, p, b, EncodePlain(probs', base, 2 * symbol + b, left - 1, v).ds);
      var x := BitStep(r, p);
      if x.Ok? && x.value.0 == b {
        PlainInverse(probs', base, 2 * symbol + b, left - 1, v, x.value.1);
      } else if DecodePlain(probs, base, symbol, left, r).Ok? {
        PlainAgrees(probs[base + symbol := Adapt(p, x.value.0)], base, 2 * symbol + x.value.0, left - 1, x.value.1);
        OneSymbol(symbol, left, x.value.0, DecodePlain(probs, base, symbol, left, r).value.value);
      }
    }
  }

  /** A value that agrees with a bit is not one with the other bit there. */
  lemma OneSymbol(symbol: nat, left: nat, b: bit, v: byte)
    requires Symbol(symbol, left) && left > 0 && Agrees(2 * symbol + b, left - 1, v)
    ensures b == NextBit(v, left) && Agrees(symbol, left, v)
  {
    QuotientHalves(v, Pow2(left - 1));
    assert Pow2(9 - left) == 2 * Pow2(8 - left);
  }

  lemma PlainDone(probs: seq<Prob>, base: nat, symbol: nat, v: byte, r: Registers)
    requires base + 0x300 <= |probs| && Symbol(symbol, 0) && Agrees(symbol, 0, v) && r.range >= TOP
    ensures var c := EncodePlain(probs, base, symbol, 0, v);
            && Replay(r, c.ds).Some?
            && DecodePlain(probs, base, symbol, 0, r) == Ok(LiteralRead(v, c.probs, Replay(r, c.ds).value))
  {
    AgreesDone(symbol, v);
    ReplayNone(r);
  }

  lemma AgreesDone(symbol: nat, v: byte)
    requires Agrees(symbol, 0, v)
    ensures symbol == 0x100 + v
  {
    assert Pow2(8) == 0x100;
  }

  lemma ReplayNone(r: Registers)
    requires r.range >= TOP
    ensures Replay(r, []) == Some(r)
  {
  }

  /** One step of the encoder against a match byte. */
  lemma EncodeMatchedStep(probs: seq<Prob>, base: nat, symbol: nat, left: nat, matched: nat, v: byte)
    requires base + 0x300 <= |probs| && Symbol(symbol, left) && left > 0 && symbol < 0x100
    ensures Symbol(2 * symbol + NextBit(v, left), left - 1) && MatchedIndex(matched, symbol) < 0x300
    ensures var index, b := base + MatchedIndex(matched, symbol), NextBit(v, left);
            var p, probs' := probs[index], probs[index := Adapt(probs[index], b)];
            var tail := if matched / 0x80 % 2 != b || left == 1
                        then EncodePlain(probs', base, 2 * symbol + b, left - 1, v)
                        else EncodeMatched(probs', base, 2 * symbol + b, left - 1, 2 * matched, v);
            EncodeMatched(probs, base, symbol, left, matched, v)
            == LiteralCode([Adaptive(p, b)] + tail.ds, tail.probs)
  {
    hide Adapt, NextBit, Symbol, Pow2, EncodePlain, MatchedIndex;
    SymbolStep(symbol, left, NextBit(v, left));
    IndexInside(matched, symbol);
  }

  /** The same against a match byte; the bit read first is the one the value has there. */
  lemma {:induction false} MatchedAgrees(probs: seq<Prob>, base: nat, symbol: nat, left: nat, matched: nat,
                                         r: Registers)
    requires base + 0x300 <= |probs| && Symbol(symbol, left) && left > 0 && r.range >= TOP
    requires DecodeMatched(probs, base, symbol, left, matched, r).Ok?
    ensures Agrees(symbol, left, DecodeMatched(probs, base, symbol, left, matched, r).value.value)
    ensures symbol < 0x100 && MatchedIndex(matched, symbol) < 0x300
    ensures var x := BitStep(r, probs[base + MatchedIndex(matched, symbol)]);
            x.Ok? && x.value.0 == NextBit(DecodeMatched(probs, base, symbol, left, matched, r).value.value, left)
    decreases left
  {
    hide BitStep, Adapt, Symbol, Agrees, Pow2, DecodePlain, DecodeMatched, MatchedIndex, NextBit;
    SymbolStep(symbol, left, 0);
    DecodeMatchedStep(probs, base, symbol, left, matched, r);
    var index := base + MatchedIndex(matched, symbol);
    var (b, n) := BitStep(r, probs[index]).value;
    var probs' := probs[index := Adapt(probs[index], b)];
    if matched / 0x80 % 2 != b || left == 1 {
      PlainAgrees(probs', base, 2 * symbol + b, left - 1, n);
    } else {
      MatchedAgrees(probs', base, 2 * symbol + b, left - 1, 2 * matched, n);
    }
    OneSymbol(symbol, left, b, DecodeMatched(probs, base, symbol, left, matched, r).value.value);
  }

  lemma {:induction false} MatchedInverse(probs: seq<Prob>, base: nat, symbol: nat, left: nat, matched: nat,
                                          v: byte, r: Registers)
    requires base + 0x300 <= |probs| && Symbol(symbol, left) && left > 0 && r.range >= TOP
    requires Agrees(symbol, left, v)
    ensures var c := EncodeMatched(probs, base, symbol, left, matched, v);
            var d := DecodeMatched(probs, base, symbol, left, matched, r);
            && (Replay(r, c.ds).Some? <==> d.Ok? && d.value.value == v)
            && (Replay(r, c.ds).Some? ==> d.value == LiteralRead(v, c.probs, Replay(r, c.ds).value))
    decreases left
  {
    hide BitStep, Adapt, NextBit, Symbol, Agrees, Replay, Pow2, MatchedIndex;
    hide EncodePlain, DecodePlain, EncodeMatched, DecodeMatched;
    var b := NextBit(v, left);
    SymbolStep(symbol, left, b);
    AgreesStep(symbol, left, v);
    DecodeMatchedStep(probs, base, symbol, left, matched, r);
    EncodeMatchedStep(probs, base, symbol, left, matched, v);
    var index := base + MatchedIndex(matched, symbol);
    var p, probs' := probs[index], probs[index := Adapt(probs[index], b)];
    var plain := matched / 0x80 % 2 != b || left == 1;
    ReplayBit(r, p, b, if plain then EncodePlain(probs', base, 2 * symbol + b, left - 1, v).ds
                       else EncodeMatched(probs', base, 2 * symbol + b, left - 1, 2 * matched, v).ds);
    var x, d := BitStep(r, p), DecodeMatched(probs, base, symbol, left, matched, r);
    if x.Ok? && x.value.0 == b {
      if plain {
        PlainInverse(probs', base, 2 * symbol + b, left - 1, v, x.value.1);
      } else {
        MatchedInverse(probs', base, 2 * symbol + b, left - 1, 2 * matched, v, x.value.1);
      }
    } else if d.Ok? && d.value.value == v {
      MatchedAgrees(probs, base, symbol, left, matched, r);
    }
  }

  lemma IndexInside(matched: nat, symbol: nat)
    requires symbol < 0x100
    ensures MatchedIndex(matched, symbol) < 0x300
  {
  }

  /** A literal decodes from exactly the bits that encode it, whatever byte it is compared with. */
  lemma LiteralInverse(probs: seq<Prob>, base: nat, state: nat, matched: byte, v: byte, r: Registers)
    requires base + 0x300 <= |probs| && r.range >= TOP
    ensures var c, d := EncodeLiteral(probs, base, state, matched, v), DecodeLiteral(probs, base, state, matched, r);
            && (Replay(r, c.ds).Some? <==> d.Ok? && d.value.value == v)
            && (Replay(r, c.ds).Some? ==> d.value == LiteralRead(v, c.probs, Replay(r, c.ds).value))
  {
    assert Pow2(8) == 0x100;
    assert Agrees(1, 8, v) && Symbol(1, 8);
    hide DecodePlain, EncodePlain, DecodeMatched, EncodeMatched, Replay, Agrees, Symbol;
    if state >= 7 {
      MatchedInverse(probs, base, 1, 8, matched, v, r);
    } else {
      PlainInverse(probs, base, 1, 8, v, r);
    }
  }

  // ---- the branches and loops of the program ----

  method ReadLength(range: RangeDecoder, m: Lengths, ps: nat) returns (r: Result<nat>, m': Lengths)
    requires range.Valid() && LengthsOk(m) && ps < POSITION_STATES
    modifies range
    ensures var d := DecodeLength(m, ps, old(range.View()));
            && (r.Ok? <==> d.Ok?)
            && (r.Ok? ==> range.Valid() && d.value == LengthRead(r.value, m', range.View()))
  {
    hide BitStep, Adapt, DecodeFrom;
    m' := m;
    var b0, p0 := range.DecodeBit(m.choice0);
    if b0.Err? {
      return Err(b0.error), m';
    }
    m' := m'.(choice0 := p0);
    if b0.value == 0 {
      var v, t := DecodeTree(range, m.low[ps], 3);
      return v, m'.(low := m.low[ps := t]);
    }
    var b1, p1 := range.DecodeBit(m.choice1);
    if b1.Err? {
      return Err(b1.error), m';
    }
    m' := m'.(choice1 := p1);
    if b1.value == 0 {
      var v, t := DecodeTree(range, m.middle[ps], 3);
      if v.Err? {
        return v, m';
      }
      return Ok(v.value + 8), m'.(middle := m.middle[ps := t]);
    }
    var v, t := DecodeTree(range, m.high, 8);
    if v.Err? {
      return v, m';
    }
    return Ok(v.value + 16), m'.(high := t);
  }

  method ReadDistance(range: RangeDecoder, m: Distances, length: nat) returns (r: Result<u32>, m': Distances)
    requires range.Valid() && DistancesOk(m)
    modifies range
    ensures var d := DecodeDistance(m, length, old(range.View()));
            && (r.Ok? <==> d.Ok?)
            && (r.Ok? ==> range.Valid() && d.value == DistanceRead(r.value, m', range.View()))
  {
    hide DecodeFrom, Fits, DecodeFooter;
    m' := m;
    var lengthState := Min(length, LENGTH_STATES - 1);
    var slot, t := DecodeTree(range, m.slots[lengthState], 6);
    if slot.Err? {
      return Err(slot.error), m';
    }
    m' := m'.(slots := m.slots[lengthState := t]);
    SixBits();
    if slot.value < START_MODEL {
      return Ok(slot.value), m';
    }
    r, m' := ReadFooter(range, m', slot.value);
  }

  method ReadFooter(range: RangeDecoder, m: Distances, slot: nat) returns (r: Result<u32>, m': Distances)
    requires range.Valid() && DistancesOk(m) && START_MODEL <= slot < 64
    modifies range
    ensures var d := DecodeFooter(m, slot, old(range.View()));
            && (r.Ok? <==> d.Ok?)
            && (r.Ok? ==> range.Valid() && d.value == DistanceRead(r.value, m', range.View()))
  {
    hide DecodeReverseFrom, DecodeDirectBits, Fits, Pow2;
    m' := m;
    var bits := slot / 2 - 1;
    var base := (2 + slot % 2) * Pow2(bits);
    assert base == Base(slot) && bits == FooterBits(slot);
    hide Base, FooterBits;
    if slot < END_MODEL {
      var model := slot - START_MODEL;
      var suffix, f := DecodeReverse(range, m.models[model], bits);
      if suffix.Err? {
        return Err(suffix.error), m';
      }
      SlotUnique(base + suffix.value, slot, suffix.value);
      return Ok(base + suffix.value), m'.(models := m.models[model := f]);
    }
    var direct := DecodeDirect(range, bits - ALIGN_BITS);
    if direct.Err? {
      return Err(direct.error), m';
    }
    var alignment, f := DecodeReverse(range, m.align, ALIGN_BITS);
    if alignment.Err? {
      return Err(alignment.error), m';
    }
    FooterParts(bits, direct.value, alignment.value);
    SlotUnique(base + 16 * direct.value + alignment.value, slot, 16 * direct.value + alignment.value);
    return Ok(base + 16 * direct.value + alignment.value), m'.(align := f);
  }

  method ReadLiteral(range: RangeDecoder, probs: seq<Prob>, lc: nat, lp: nat, state: nat, matchByte: byte,
                     previous: byte, position: nat) returns (r: Result<byte>, probs': seq<Prob>)
    requires range.Valid() && lc + lp <= 4 && |probs| == 0x300 * Pow2(lc + lp)
    modifies range
    ensures LiteralBase(lc, lp, position, previous) + 0x300 <= |probs|
    ensures var d := DecodeLiteral(probs, LiteralBase(lc, lp, position, previous), state, matchByte, old(range.View()));
            && (r.Ok? <==> d.Ok?)
            && (r.Ok? ==> range.Valid() && d.value == LiteralRead(r.value, probs', range.View()))
  {
    var base := LiteralBase(lc, lp, position, previous);
    hide LiteralBase, DecodePlain, DecodeMatched, Symbol, Pow2;
    probs' := probs;
    var symbol: nat := 1;
    ghost var left: nat := 8;
    SymbolStart();
    if state >= 7 {
      var m;
      m, probs', left := ReadMatched(range, probs, base, matchByte);
      if m.Err? {
        return Err(m.error), probs';
      }
      symbol := m.value;
    }
    r, probs' := ReadPlain(range, probs', base, symbol, left);
  }

  lemma DecodeMatchedStep(probs: seq<Prob>, base: nat, symbol: nat, left: nat, matched: nat, r: Registers)
    requires base + 0x300 <= |probs| && Symbol(symbol, left) && left > 0 && r.range >= TOP && symbol < 0x100
    ensures Symbol(2 * symbol, left - 1) && Symbol(2 * symbol + 1, left - 1) && MatchedIndex(matched, symbol) < 0x300
    ensures var index := base + MatchedIndex(matched, symbol);
            var x, d := BitStep(r, probs[index]), DecodeMatched(probs, base, symbol, left, matched, r);
            && (x.Err? ==> d.Err?)
            && (x.Ok? ==>
                  var (b, n) := x.value;
                  var probs' := probs[index := Adapt(probs[index], b)];
                  d == if matched / 0x80 % 2 != b || left == 1
                       then DecodePlain(probs', base, 2 * symbol + b, left - 1, n)
                       else DecodeMatched(probs', base, 2 * symbol + b, left - 1, 2 * matched, n))
  {
    hide BitStep, Adapt, Symbol, DecodePlain, MatchedIndex, Pow2;
    SymbolStep(symbol, left, 0);
    SymbolStep(symbol, left, 1);
    IndexInside(matched, symbol);
  }

  /** Bits compared with the match byte, up to and including the first that differs. */
  method ReadMatched(range: RangeDecoder, probs: seq<Prob>, base: nat, matchByte: byte)
    returns (r: Result<nat>, probs': seq<Prob>, ghost left: nat)
    requires range.Valid() && base + 0x300 <= |probs|
    modifies range
    ensures Symbol(1, 8) && |probs'| == |probs|
    ensures r.Err? ==> DecodeMatched(probs, base, 1, 8, matchByte, old(range.View())).Err?
    ensures r.Ok? ==> range.Valid() && Symbol(r.value, left)
    ensures r.Ok? ==>
              var d := DecodeMatched(probs, base, 1, 8, matchByte, old(range.View()));
              d == DecodePlain(probs', base, r.value, left, range.View())
  {
    hide BitStep, Adapt, Symbol, Pow2, DecodePlain, DecodeMatched, MatchedIndex;
    SymbolStart();
    ghost var whole := DecodeMatched(probs, base, 1, 8, matchByte, range.View());
    probs' := probs;
    var symbol: nat, matched: nat := 1, matchByte;
    left := 8;
    while true
      invariant range.Valid() && |probs'| == |probs| && Symbol(symbol, left) && left > 0
      invariant whole == DecodeMatched(probs', base, symbol, left, matched, range.View())
      decreases left
    {
      var matchBit := matched / 0x80 % 2;
      SymbolStep(symbol, left, 0);
      SymbolStep(symbol, left, 1);
      IndexInside(matched, symbol);
      DecodeMatchedStep(probs', base, symbol, left, matched, range.View());
      var index := base + MatchedIndex(matched, symbol);
      matched := 2 * matched;
      var b, p := range.DecodeBit(probs'[index]);
      if b.Err? {
        return Err(b.error), probs', left;
      }
      probs' := probs'[index := p];
      symbol := 2 * symbol + b.value;
      left := left - 1;
      SymbolSize(symbol, left);
      if matchBit != b.value || symbol >= 0x100 {
        return Ok(symbol), probs', left;
      }
    }
  }

  method ReadPlain(range: RangeDecoder, probs: seq<Prob>, base: nat, first: nat, ghost remaining: nat)
    returns (r: Result<byte>, probs': seq<Prob>)
    requires range.Valid() && base + 0x300 <= |probs| && Symbol(first, remaining)
    modifies range
    ensures var d := DecodePlain(probs, base, first, remaining, old(range.View()));
            && (r.Ok? <==> d.Ok?)
            && (r.Ok? ==> range.Valid() && d.value == LiteralRead(r.value, probs', range.View()))
  {
    hide BitStep, Adapt, Symbol, Pow2;
    ghost var whole := DecodePlain(probs, base, first, remaining, range.View());
    ghost var left := remaining;
    probs' := probs;
    var symbol: nat := first;
    SymbolSize(symbol, left);
    while symbol < 0x100
      invariant range.Valid() && |probs'| == |probs| && Symbol(symbol, left)
      invariant symbol < 0x100 <==> left > 0
      invariant whole == DecodePlain(probs', base, symbol, left, range.View())
      decreases left
    {
      SymbolStep(symbol, left, 0);
      SymbolStep(symbol, left, 1);
      var index := base + symbol;
      var b, p := range.DecodeBit(probs'[index]);
      if b.Err? {
        return Err(b.error), probs';
      }
      probs' := probs'[index := p];
      symbol := 2 * symbol + b.value;
      left := left - 1;
      SymbolSize(symbol, left);
    }
    SymbolDone(symbol);
    r := Ok(symbol - 0x100);
  }

  lemma SymbolStart()
    ensures Symbol(1, 8)
  {
  }

  /** The loops stop at 0x100, which is exactly when all eight bits are read. */
  lemma SymbolSize(symbol: nat, left: nat)
    requires Symbol(symbol, left)
    ensures symbol < 0x100 <==> left > 0
  {
    if left > 0 {
      SymbolStep(symbol, left, 0);
    } else {
      SymbolDone(symbol);
    }
  }
}
