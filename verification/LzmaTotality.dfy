/** On arbitrary input an LZMA operation can only fail by running out of bytes. */
module LzmaTotality {
  import opened Prelude
  import opened LzmaRange
  import opened LzmaTrees
  import opened LzmaSymbols
  import opened LzmaOperations

  /** At most `n` bytes are gone. */
  predicate Eats(r: Registers, next: Registers, n: nat) {
    |r.rest| - n <= |next.rest| <= |r.rest|
  }

  /** An operation takes at most 48 decisions: a new match with a distance of 30 footer bits. */
  const LONGEST: nat := 48

  lemma BitEats(r: Registers, p: Prob)
    requires r.range >= TOP && r.rest != []
    ensures BitStep(r, p).Ok? && Eats(r, BitStep(r, p).value.1, 1)
  {
    hide Bound;
  }

  lemma DirectEats(r: Registers)
    requires r.range >= TOP && r.rest != []
    ensures DirectStep(r).Ok? && Eats(r, DirectStep(r).value.1, 1)
  {
  }

  lemma {:induction false} TreeEats(t: Tree, node: nat, left: nat, r: Registers)
    requires Fits(|t|, node, left) && r.range >= TOP && |r.rest| >= left
    ensures var d := DecodeFrom(t, node, left, r); d.Ok? && Eats(r, d.value.next, left)
    decreases left
  {
    hide BitStep, Adapt, Fits;
    if left > 0 {
      FitsStep(|t|, node, left);
      BitEats(r, t[node]);
      var (b, n) := BitStep(r, t[node]).value;
      TreeEats(t[node := Adapt(t[node], b)], 2 * node + b, left - 1, n);
    }
  }

  lemma {:induction false} ReverseEats(t: Tree, node: nat, left: nat, r: Registers)
    requires Fits(|t|, node, left) && r.range >= TOP && |r.rest| >= left
    ensures var d := DecodeReverseFrom(t, node, left, r); d.Ok? && Eats(r, d.value.next, left)
    decreases left
  {
    hide BitStep, Adapt, Fits;
    if left > 0 {
      FitsStep(|t|, node, left);
      BitEats(r, t[node]);
      var (b, n) := BitStep(r, t[node]).value;
      ReverseEats(t[node := Adapt(t[node], b)], 2 * node + b, left - 1, n);
    }
  }

  lemma {:induction false} DirectBitsEat(left: nat, r: Registers)
    requires r.range >= TOP && |r.rest| >= left
    ensures var d := DecodeDirectBits(left, r); d.Ok? && Eats(r, d.value.1, left)
    decreases left
  {
    hide DirectStep, Pow2;
    if left > 0 {
      DirectEats(r);
      DirectBitsEat(left - 1, DirectStep(r).value.1);
    }
  }

  lemma TreeValueEats(t: Tree, bits: nat, r: Registers)
    requires |t| == Pow2(bits) && r.range >= TOP && |r.rest| >= bits
    ensures var d := TreeValue(t, bits, r); d.Ok? && Eats(r, d.value.next, bits)
  {
    hide DecodeFrom, Fits;
    FitsRoot(bits);
    TreeEats(t, 1, bits, r);
    DecodeAbove(t, 1, bits, r);
  }

  lemma LengthEats(m: Lengths, ps: nat, r: Registers)
    requires LengthsOk(m) && ps < POSITION_STATES && r.range >= TOP && |r.rest| >= 10
    ensures var d := DecodeLength(m, ps, r); d.Ok? && Eats(r, d.value.next, 10)
  {
    hide BitStep, Adapt, TreeValue;
    BitEats(r, m.choice0);
    var (b0, r0) := BitStep(r, m.choice0).value;
    if b0 == 0 {
      TreeValueEats(m.low[ps], 3, r0);
    } else {
      BitEats(r0, m.choice1);
      var (b1, r1) := BitStep(r0, m.choice1).value;
      if b1 == 0 {
        TreeValueEats(m.middle[ps], 3, r1);
      } else {
        TreeValueEats(m.high, 8, r1);
      }
    }
  }

  lemma FooterEats(m: Distances, slot: nat, r: Registers)
    requires DistancesOk(m) && START_MODEL <= slot < 64 && r.range >= TOP && |r.rest| >= 30
    ensures var d := DecodeFooter(m, slot, r); d.Ok? && Eats(r, d.value.next, 30)
  {
    hide DecodeReverseFrom, DecodeDirectBits, Fits, Pow2, Base;
    var bits := FooterBits(slot);
    if slot < END_MODEL {
      FitsRoot(bits);
      ReverseEats(m.models[slot - START_MODEL], 1, bits, r);
    } else {
      DirectBitsEat(bits - ALIGN_BITS, r);
      FitsRoot(ALIGN_BITS);
      ReverseEats(m.align, 1, ALIGN_BITS, DecodeDirectBits(bits - ALIGN_BITS, r).value.1);
    }
  }

  lemma DistanceEats(m: Distances, length: nat, r: Registers)
    requires DistancesOk(m) && r.range >= TOP && |r.rest| >= 36
    ensures var d := DecodeDistance(m, length, r); d.Ok? && Eats(r, d.value.next, 36)
  {
    hide TreeValue, DecodeFooter, DistancesOk;
    assert DistancesOk(m);
    SlotTreeEats(m, length, r);
    var lengthState := Min(length, LENGTH_STATES - 1);
    var slot := TreeValue(m.slots[lengthState], 6, r).value;
    if slot.value >= START_MODEL {
      FooterEats(m.(slots := m.slots[lengthState := slot.tree]), slot.value, slot.next);
    }
  }

  lemma SlotTreeEats(m: Distances, length: nat, r: Registers)
    requires DistancesOk(m) && r.range >= TOP && |r.rest| >= 6
    ensures |m.slots| == LENGTH_STATES
    ensures var s := Min(length, LENGTH_STATES - 1);
            && |m.slots[s]| == Pow2(6)
            && var d := TreeValue(m.slots[s], 6, r);
               && d.Ok? && Eats(r, d.value.next, 6) && d.value.value < 64
               && DistancesOk(m.(slots := m.slots[s := d.value.tree]))
  {
    hide TreeValue;
    SixBits();
    TreeValueEats(m.slots[Min(length, LENGTH_STATES - 1)], 6, r);
  }

  lemma {:induction false} PlainEats(probs: seq<Prob>, base: nat, symbol: nat, left: nat, r: Registers)
    requires base + 0x300 <= |probs| && Symbol(symbol, left) && r.range >= TOP && |r.rest| >= left
    ensures var d := DecodePlain(probs, base, symbol, left, r); d.Ok? && Eats(r, d.value.next, left)
    decreases left
  {
    hide BitStep, Adapt, Symbol, Pow2;
    if left > 0 {
      DecodePlainStep(probs, base, symbol, left, r);
      hide DecodePlain;
      BitEats(r, probs[base + symbol]);
      var (b, n) := BitStep(r, probs[base + symbol]).value;
      PlainEats(probs[base + symbol := Adapt(probs[base + symbol], b)], base, 2 * symbol + b, left - 1, n);
    }
  }

  lemma {:induction false} MatchedEats(probs: seq<Prob>, base: nat, symbol: nat, left: nat, matched: nat, r: Registers)
    requires base + 0x300 <= |probs| && Symbol(symbol, left) && left > 0 && r.range >= TOP && |r.rest| >= left
    ensures var d := DecodeMatched(probs, base, symbol, left, matched, r); d.Ok? && Eats(r, d.value.next, left)
    decreases left
  {
    hide BitStep, Adapt, Symbol, DecodePlain, MatchedIndex;
    SymbolStep(symbol, left, 0);
    SymbolStep(symbol, left, 1);
    IndexInside(matched, symbol);
    var index := base + MatchedIndex(matched, symbol);
    BitEats(r, probs[index]);
    var (b, n) := BitStep(r, probs[index]).value;
    var probs' := probs[index := Adapt(probs[index], b)];
    if matched / 0x80 % 2 != b || left == 1 {
      PlainEats(probs', base, 2 * symbol + b, left - 1, n);
    } else {
      MatchedEats(probs', base, 2 * symbol + b, left - 1, 2 * matched, n);
    }
  }

  lemma LiteralEats(probs: seq<Prob>, base: nat, state: nat, matched: byte, r: Registers)
    requires base + 0x300 <= |probs| && r.range >= TOP && |r.rest| >= 8
    ensures var d := DecodeLiteral(probs, base, state, matched, r); d.Ok? && Eats(r, d.value.next, 8)
  {
    SymbolStart();
    hide DecodePlain, DecodeMatched, Symbol;
    if state >= 7 {
      MatchedEats(probs, base, 1, 8, matched, r);
    } else {
      PlainEats(probs, base, 1, 8, r);
    }
  }

  ghost predicate Succeeds(d: Result<OperationRead>, r: Registers, n: nat) {
    d.Ok? && Eats(r, d.value.next, n)
  }

  lemma NewMatchSucceeds(m: Model, ps: nat, r: Registers)
    requires ModelOk(m) && ps < POSITION_STATES && r.range >= TOP && |r.rest| >= 46
    ensures Succeeds(DecodeNewMatch(m, ps, r), r, 46)
  {
    hide DecodeLength, DecodeDistance, LengthsOk, DistancesOk, MatchModel;
    LengthEats(m.length, ps, r);
    var len := DecodeLength(m.length, ps, r).value;
    DistanceEats(m.distance, len.value, len.next);
  }

  lemma RepLengthSucceeds(m: Model, ps: nat, reps: seq<u32>, r: Registers)
    requires ModelOk(m) && ps < POSITION_STATES && |reps| == 4 && reps[0] != EOS && r.range >= TOP && |r.rest| >= 10
    ensures Succeeds(DecodeRepLength(m, ps, reps, r), r, 10)
  {
    hide DecodeLength, LengthsOk, DistancesOk, RepModel;
    LengthEats(m.repLength, ps, r);
  }

  lemma RepLaterSucceeds(m: Model, ps: nat, r: Registers)
    requires ModelOk(m) && ps < POSITION_STATES && RepsBelow(m) && r.range >= TOP && |r.rest| >= 12
    ensures Succeeds(DecodeRepLater(m, ps, r), r, 12)
  {
    hide BitStep, Flip, DecodeRepLength, LengthsOk, DistancesOk;
    BitEats(r, m.isRepOne[m.state]);
    var (one, n) := BitStep(r, m.isRepOne[m.state]).value;
    var m' := m.(isRepOne := Flip(m.isRepOne, m.state, one));
    if one == 0 {
      RepLengthSucceeds(m', ps, ToFront(m.reps, 1), n);
    } else {
      BitEats(n, m'.isRepTwo[m'.state]);
      var (two, n') := BitStep(n, m'.isRepTwo[m'.state]).value;
      RepLengthSucceeds(m'.(isRepTwo := Flip(m'.isRepTwo, m'.state, two)), ps, ToFront(m.reps, 2 + two), n');
    }
  }

  lemma RepZeroSucceeds(m: Model, ps: nat, r: Registers)
    requires ModelOk(m) && ps < POSITION_STATES && RepsBelow(m) && r.range >= TOP && |r.rest| >= 11
    ensures Succeeds(DecodeRepZero(m, ps, r), r, 11)
  {
    hide BitStep, Flip, DecodeRepLength, LengthsOk, DistancesOk, ShortModel;
    var combined := POSITION_STATES * m.state + ps;
    BitEats(r, m.isRepZeroLong[combined]);
    var (long, n) := BitStep(r, m.isRepZeroLong[combined]).value;
    if long == 1 {
      RepLengthSucceeds(m.(isRepZeroLong := Flip(m.isRepZeroLong, combined, long)), ps, m.reps, n);
    }
  }

  lemma MatchSucceeds(m: Model, ps: nat, r: Registers)
    requires ModelOk(m) && ps < POSITION_STATES && RepsBelow(m) && r.range >= TOP && |r.rest| >= 47
    ensures Succeeds(DecodeMatch(m, ps, r), r, 47)
  {
    hide BitStep, Flip, DecodeNewMatch, DecodeRepZero, DecodeRepLater, LengthsOk, DistancesOk;
    BitEats(r, m.isRep[m.state]);
    var (isRep, n) := BitStep(r, m.isRep[m.state]).value;
    var m' := m.(isRep := Flip(m.isRep, m.state, isRep));
    if isRep == 0 {
      NewMatchSucceeds(m', ps, n);
    } else {
      BitEats(n, m'.isRepZero[m'.state]);
      var (zero, n') := BitStep(n, m'.isRepZero[m'.state]).value;
      var m2 := m'.(isRepZero := Flip(m'.isRepZero, m'.state, zero));
      if zero == 0 {
        RepZeroSucceeds(m2, ps, n');
      } else {
        RepLaterSucceeds(m2, ps, n');
      }
    }
  }

  /** With 48 bytes left, any bytes decode: no index, overflow or distance check of the program can fail. */
  lemma OperationSucceeds(m: Model, out: seq<byte>, r: Registers)
    requires ModelOk(m) && RepsBelow(m) && r.range >= TOP && |r.rest| >= LONGEST
    ensures Succeeds(DecodeOperation(m, out, r), r, LONGEST)
  {
    hide BitStep, Flip, DecodeMatch, DecodeLiteral, LiteralModel, LengthsOk, DistancesOk, PositionState, MatchByte;
    var ps := PositionState(m, out);
    var combined := POSITION_STATES * m.state + ps;
    BitEats(r, m.isMatch[combined]);
    var (isMatch, n) := BitStep(r, m.isMatch[combined]).value;
    var m' := m.(isMatch := Flip(m.isMatch, combined, isMatch));
    if isMatch == 0 {
      var base := LiteralBase(m'.lc, m'.lp, |out|, Previous(out));
      LiteralEats(m'.literal, base, m'.state, MatchByte(out, m'.reps[0]), n);
    } else {
      MatchSucceeds(m', ps, n);
    }
  }
}
