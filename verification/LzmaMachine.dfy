/** `LzmaState`: the decoder's fields, updated in place by each operation. */
module LzmaMachine {
  import opened Prelude
  import opened LzmaRange
  import opened LzmaTrees
  import opened LzmaSymbols
  import opened LzmaOperations

  class LzmaState {
    const lc: nat
    const lp: nat
    const pb: nat
    var reps: seq<u32>
    var isMatch: seq<Prob>
    var isRepZeroLong: seq<Prob>
    var isRep: seq<Prob>
    var isRepZero: seq<Prob>
    var isRepOne: seq<Prob>
    var isRepTwo: seq<Prob>
    var literal: seq<Prob>
    var length: Lengths
    var repLength: Lengths
    var distance: Distances
    var state: nat

    ghost function View(): Model
      reads this
    {
      Model(lc, lp, pb, reps, isMatch, isRepZeroLong, isRep, isRepZero, isRepOne, isRepTwo,
            literal, length, repLength, distance, state)
    }

    ghost predicate Valid()
      reads this
    {
      ModelOk(View())
    }

    constructor (lc: nat, lp: nat, pb: nat)
      requires lc + lp <= 4 && pb <= 4
      ensures Valid() && View() == FreshModel(lc, lp, pb)
    {
      hide Pow2, LengthsOk, DistancesOk;
      this.lc, this.lp, this.pb := lc, lp, pb;
      reps := [0, 0, 0, 0];
      isMatch, isRepZeroLong := Fresh(STATES * POSITION_STATES), Fresh(STATES * POSITION_STATES);
      isRep, isRepZero, isRepOne, isRepTwo := Fresh(STATES), Fresh(STATES), Fresh(STATES), Fresh(STATES);
      literal := Fresh(0x300 * Pow2(lc + lp));
      length, repLength, distance := FreshLengths(), FreshLengths(), FreshDistances();
      state := 0;
    }

    /** Back to the initial probabilities, keeping the three properties. */
    method Reset()
      requires Valid()
      modifies this
      ensures Valid() && View() == FreshModel(lc, lp, pb)
    {
      hide Pow2, LengthsOk, DistancesOk;
      reps := [0, 0, 0, 0];
      isMatch, isRepZeroLong := Fresh(STATES * POSITION_STATES), Fresh(STATES * POSITION_STATES);
      isRep, isRepZero, isRepOne, isRepTwo := Fresh(STATES), Fresh(STATES), Fresh(STATES), Fresh(STATES);
      literal := Fresh(|literal|);
      length, repLength, distance := FreshLengths(), FreshLengths(), FreshDistances();
      state := 0;
    }

    /** What a method that finishes an operation promises, against its functional form `d`. */
    ghost predicate Finishes(r: Result<Operation>, range: RangeDecoder, d: Result<OperationRead>)
      reads this, range
    {
      && (r.Ok? <==> d.Ok?)
      && (r.Ok? ==> range.Valid() && Valid() && d.value == OperationRead(r.value, View(), range.View()))
    }

    method Decode(range: RangeDecoder, output: seq<byte>) returns (r: Result<Operation>)
      requires Valid() && range.Valid()
      modifies this, range
      ensures Finishes(r, range, DecodeOperation(old(View()), output, old(range.View())))
    {
      hide BitStep, LengthsOk, DistancesOk, DecodeLiteralOp, DecodeMatch;
      ghost var before := View();
      var ps := |output| % Pow2(pb);
      assert ps == PositionState(before, output);
      hide Pow2, PositionState;
      var combined := POSITION_STATES * state + ps;
      var b, p := range.DecodeBit(isMatch[combined]);
      if b.Err? {
        return Err(b.error);
      }
      isMatch := isMatch[combined := p];
      assert View() == before.(isMatch := Flip(before.isMatch, combined, b.value));
      if b.value == 0 {
        r := ReadLiteralOp(range, output);
      } else {
        r := ReadMatchOp(range, ps);
      }
    }

    method ReadLiteralOp(range: RangeDecoder, output: seq<byte>) returns (r: Result<Operation>)
      requires Valid() && range.Valid()
      modifies this, range
      ensures Finishes(r, range, DecodeLiteralOp(old(View()), output, old(range.View())))
    {
      hide BitStep, LengthsOk, DistancesOk, DecodeLiteral, LiteralBase, MatchByte, Pow2;
      ghost var before := View();
      var b, probs := ReadLiteral(range, literal, lc, lp, state, MatchByte(output, reps[0]), Previous(output),
                                  |output|);
      if b.Err? {
        return Err(b.error);
      }
      literal := probs;
      state := AfterLiteral(state);
      assert View() == LiteralModel(before, probs);
      r := Ok(Literal(b.value));
    }

    method ReadMatchOp(range: RangeDecoder, ps: nat) returns (r: Result<Operation>)
      requires Valid() && range.Valid() && ps < POSITION_STATES
      modifies this, range
      ensures Finishes(r, range, DecodeMatch(old(View()), ps, old(range.View())))
    {
      hide BitStep, LengthsOk, DistancesOk, DecodeNewMatch, DecodeRepetition, Pow2;
      ghost var before := View();
      var b, p := range.DecodeBit(isRep[state]);
      if b.Err? {
        return Err(b.error);
      }
      isRep := isRep[state := p];
      assert View() == before.(isRep := Flip(before.isRep, before.state, b.value));
      if b.value == 0 {
        r := ReadNewMatch(range, ps);
      } else {
        r := ReadRepetition(range, ps);
      }
    }

    method ReadNewMatch(range: RangeDecoder, ps: nat) returns (r: Result<Operation>)
      requires Valid() && range.Valid() && ps < POSITION_STATES
      modifies this, range
      ensures Finishes(r, range, DecodeNewMatch(old(View()), ps, old(range.View())))
    {
      hide LengthsOk, DistancesOk, DecodeLength, DecodeDistance, Pow2;
      ghost var before := View();
      reps := reps[3 := reps[2]];
      reps := reps[2 := reps[1]];
      reps := reps[1 := reps[0]];
      state := AfterMatch(state);
      var extra, lengths := ReadLength(range, length, ps);
      if extra.Err? {
        return Err(extra.error);
      }
      length := lengths;
      var offset, distances := ReadDistance(range, distance, extra.value);
      if offset.Err? {
        return Err(offset.error);
      }
      distance := distances;
      reps := reps[0 := offset.value];
      assert reps == [offset.value] + before.reps[..3];
      assert View() == MatchModel(before, offset.value, lengths, distances);
      if offset.value == EOS {
        return Ok(End);
      }
      r := Ok(Match(offset.value + 1, extra.value + MIN_MATCH));
    }

    method ReadRepetition(range: RangeDecoder, ps: nat) returns (r: Result<Operation>)
      requires Valid() && range.Valid() && ps < POSITION_STATES
      modifies this, range
      ensures Finishes(r, range, DecodeRepetition(old(View()), ps, old(range.View())))
    {
      hide BitStep, LengthsOk, DistancesOk, DecodeRepZero, DecodeRepLater, DecodeRepLength, Pow2;
      ghost var before := View();
      var b, p := range.DecodeBit(isRepZero[state]);
      if b.Err? {
        return Err(b.error);
      }
      isRepZero := isRepZero[state := p];
      assert View() == before.(isRepZero := Flip(before.isRepZero, before.state, b.value));
      if b.value == 0 {
        var short := ReadIsShort(range, ps);
        if short.Err? {
          return Err(short.error);
        }
        if short.value {
          return if reps[0] == EOS then Err(Format) else Ok(Match(reps[0] + 1, 1));
        }
      } else {
        var older := ReadOlder(range, ps);
        if older.Err? {
          return Err(older.error);
        }
      }
      r := FinishRepetition(range, ps);
    }

    /** Whether the last distance is repeated for a single byte. */
    method ReadIsShort(range: RangeDecoder, ps: nat) returns (r: Result<bool>)
      requires Valid() && range.Valid() && ps < POSITION_STATES
      modifies this, range
      ensures r.Err? ==> DecodeRepZero(old(View()), ps, old(range.View())).Err?
      ensures r.Ok? ==> Valid() && range.Valid()
      ensures r.Ok? ==>
                var d := DecodeRepZero(old(View()), ps, old(range.View()));
                if !r.value then d == DecodeRepLength(View(), ps, reps, range.View())
                else if reps[0] == EOS then d.Err?
                else d == Ok(OperationRead(Match(reps[0] + 1, 1), View(), range.View()))
    {
      hide BitStep, LengthsOk, DistancesOk, DecodeRepLength, Pow2;
      ghost var before := View();
      var combined := POSITION_STATES * state + ps;
      var b, p := range.DecodeBit(isRepZeroLong[combined]);
      if b.Err? {
        return Err(b.error);
      }
      isRepZeroLong := isRepZeroLong[combined := p];
      assert View() == before.(isRepZeroLong := Flip(before.isRepZeroLong, combined, b.value));
      if b.value == 0 {
        state := AfterShort(state);
      }
      r := Ok(b.value == 0);
    }

    /** Moves the second, third or fourth remembered distance to the front. */
    method ReadOlder(range: RangeDecoder, ps: nat) returns (r: Result<()>)
      requires Valid() && range.Valid() && ps < POSITION_STATES
      modifies this, range
      ensures r.Err? ==> DecodeRepLater(old(View()), ps, old(range.View())).Err?
      ensures r.Ok? ==> Valid() && range.Valid()
      ensures r.Ok? ==>
                DecodeRepLater(old(View()), ps, old(range.View())) == DecodeRepLength(View(), ps, reps, range.View())
    {
      hide BitStep, LengthsOk, DistancesOk, DecodeRepLength, Pow2;
      ghost var before := View();
      var b, p := range.DecodeBit(isRepOne[state]);
      if b.Err? {
        return Err(b.error);
      }
      isRepOne := isRepOne[state := p];
      ghost var m1 := View();
      assert m1 == before.(isRepOne := Flip(before.isRepOne, before.state, b.value));
      var d := reps[1];
      ghost var which: nat := 1;
      ghost var m2 := m1;
      if b.value == 1 {
        var b2, p2 := range.DecodeBit(isRepTwo[state]);
        if b2.Err? {
          return Err(b2.error);
        }
        isRepTwo := isRepTwo[state := p2];
        d := reps[2];
        if b2.value == 1 {
          d := reps[3];
          reps := reps[3 := reps[2]];
        }
        reps := reps[2 := reps[1]];
        which := if b2.value == 0 then 2 else 3;
        m2 := m1.(isRepTwo := Flip(m1.isRepTwo, m1.state, b2.value));
      }
      reps := reps[1 := reps[0]];
      reps := reps[0 := d];
      assert reps == ToFront(before.reps, which);
      assert View().(reps := before.reps) == m2;
      RepLengthIgnoresReps(View(), before.reps, reps, ps, range.View());
      r := Ok(());
    }

    method FinishRepetition(range: RangeDecoder, ps: nat) returns (r: Result<Operation>)
      requires Valid() && range.Valid() && ps < POSITION_STATES
      modifies this, range
      ensures Finishes(r, range, DecodeRepLength(old(View()), ps, old(reps), old(range.View())))
    {
      hide LengthsOk, DistancesOk, DecodeLength, Pow2;
      ghost var before := View();
      var extra, lengths := ReadLength(range, repLength, ps);
      if extra.Err? {
        return Err(extra.error);
      }
      repLength := lengths;
      state := AfterRepetition(state);
      assert View() == RepModel(before, before.reps, lengths);
      r := if reps[0] == EOS then Err(Format) else Ok(Match(reps[0] + 1, extra.value + MIN_MATCH));
    }
  }

  /** A repetition's length is read the same whatever was remembered before. */
  lemma RepLengthIgnoresReps(m: Model, before: seq<u32>, reps: seq<u32>, ps: nat, r: Registers)
    requires ModelOk(m) && |before| == 4 && |reps| == 4 && ps < POSITION_STATES && r.range >= TOP
    ensures ModelOk(m.(reps := before))
    ensures DecodeRepLength(m.(reps := before), ps, reps, r) == DecodeRepLength(m, ps, reps, r)
  {
    hide DecodeLength, LengthsOk, DistancesOk;
  }
}
