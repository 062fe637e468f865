/** Every LZMA operation that decodes is exactly one choice of an encoder. */
module LzmaChoices {
  import opened Prelude
  import opened LzmaRange
  import opened LzmaTrees
  import opened LzmaSymbols
  import opened LzmaOperations

  // ---- one operation ----

  lemma RepLengthExact(m: Model, ps: nat, reps: seq<u32>, r: Registers) returns (extra: nat)
    requires ModelOk(m) && ps < POSITION_STATES && |reps| == 4 && r.range >= TOP
    requires DecodeRepLength(m, ps, reps, r).Ok?
    ensures extra < 272 && reps[0] != EOS && Replay(r, EncodeRepLength(m, ps, reps, extra).ds).Some?
  {
    hide DecodeLength, EncodeLength, Replay, LengthsOk, DistancesOk, RepModel;
    extra := DecodeLength(m.repLength, ps, r).value.value;
    LengthInverse(m.repLength, ps, extra, r);
  }

  lemma RepZeroExact(m: Model, ps: nat, r: Registers) returns (c: Choice)
    requires ModelOk(m) && ps < POSITION_STATES && r.range >= TOP && DecodeRepZero(m, ps, r).Ok?
    ensures ChoiceOk(m.reps, c) && (c.Short? || (c.Again? && c.which == 0))
    ensures Replay(r, EncodeRepZero(m, ps, c).ds).Some?
  {
    hide BitStep, Flip, Replay, Decide, DecodeRepLength, EncodeRepLength, LengthsOk, DistancesOk, ShortModel;
    var combined := POSITION_STATES * m.state + ps;
    var (long, n) := BitStep(r, m.isRepZeroLong[combined]).value;
    var m' := m.(isRepZeroLong := Flip(m.isRepZeroLong, combined, long));
    c := Short;
    ReplayNone(n);
    if long == 1 {
      var extra := RepLengthExact(m', ps, m.reps, n);
      c := Again(0, extra);
    }
    DecideReplays(r, m.isRepZeroLong[combined], long,
                  if c.Short? then OperationCode([], ShortModel(m')) else EncodeRepLength(m', ps, m.reps, c.extra));
  }

  lemma RepLaterExact(m: Model, ps: nat, r: Registers) returns (which: nat, extra: nat)
    requires ModelOk(m) && ps < POSITION_STATES && r.range >= TOP && DecodeRepLater(m, ps, r).Ok?
    ensures 1 <= which < 4 && extra < 272 && m.reps[which] != EOS
    ensures Replay(r, EncodeRepLater(m, ps, which, extra).ds).Some?
  {
    hide BitStep, Flip, Replay, Decide, DecodeRepLength, EncodeRepLength, LengthsOk, DistancesOk;
    var (one, n) := BitStep(r, m.isRepOne[m.state]).value;
    var m' := m.(isRepOne := Flip(m.isRepOne, m.state, one));
    if one == 0 {
      which := 1;
      extra := RepLengthExact(m', ps, ToFront(m.reps, 1), n);
      DecideReplays(r, m.isRepOne[m.state], one, EncodeRepLength(m', ps, ToFront(m.reps, 1), extra));
    } else {
      which, extra := RepLastExact(m', ps, n);
      DecideReplays(r, m.isRepOne[m.state], one, EncodeRepLast(m', ps, which, extra));
    }
  }

  lemma RepLastExact(m: Model, ps: nat, r: Registers) returns (which: nat, extra: nat)
    requires ModelOk(m) && ps < POSITION_STATES && r.range >= TOP && DecodeRepLast(m, ps, r).Ok?
    ensures 2 <= which < 4 && extra < 272 && m.reps[which] != EOS
    ensures Replay(r, EncodeRepLast(m, ps, which, extra).ds).Some?
  {
    hide BitStep, Flip, Replay, Decide, DecodeRepLength, EncodeRepLength, LengthsOk, DistancesOk;
    var (two, n) := BitStep(r, m.isRepTwo[m.state]).value;
    var m' := m.(isRepTwo := Flip(m.isRepTwo, m.state, two));
    which := 2 + two;
    extra := RepLengthExact(m', ps, ToFront(m.reps, which), n);
    DecideReplays(r, m.isRepTwo[m.state], two, EncodeRepLength(m', ps, ToFront(m.reps, which), extra));
  }

  lemma RepetitionExact(m: Model, ps: nat, r: Registers) returns (c: Choice)
    requires ModelOk(m) && ps < POSITION_STATES && r.range >= TOP && DecodeRepetition(m, ps, r).Ok?
    ensures ChoiceOk(m.reps, c) && (c.Short? || c.Again?) && Replay(r, EncodeRepetition(m, ps, c).ds).Some?
  {
    hide BitStep, Flip, Replay, Decide, DecodeRepZero, EncodeRepZero, DecodeRepLater, EncodeRepLater;
    hide LengthsOk, DistancesOk;
    var (zero, n) := BitStep(r, m.isRepZero[m.state]).value;
    var m' := m.(isRepZero := Flip(m.isRepZero, m.state, zero));
    if zero == 0 {
      c := RepZeroExact(m', ps, n);
      DecideReplays(r, m.isRepZero[m.state], zero, EncodeRepZero(m', ps, c));
    } else {
      var which, extra := RepLaterExact(m', ps, n);
      c := Again(which, extra);
      DecideReplays(r, m.isRepZero[m.state], zero, EncodeRepLater(m', ps, which, extra));
    }
  }

  lemma NewMatchExact(m: Model, ps: nat, r: Registers) returns (offset: u32, extra: nat)
    requires ModelOk(m) && ps < POSITION_STATES && r.range >= TOP && DecodeNewMatch(m, ps, r).Ok?
    ensures extra < 272 && Replay(r, EncodeNewMatch(m, ps, offset, extra).ds).Some?
  {
    hide DecodeLength, EncodeLength, DecodeDistance, EncodeDistance, Replay, LengthsOk, DistancesOk, MatchModel;
    var length := DecodeLength(m.length, ps, r).value;
    var distance := DecodeDistance(m.distance, length.value, length.next).value;
    offset, extra := distance.value, length.value;
    LengthInverse(m.length, ps, extra, r);
    DistanceInverse(m.distance, extra, offset, length.next);
    ReplayAppend(r, EncodeLength(m.length, ps, extra).ds, EncodeDistance(m.distance, extra, offset).ds);
  }

  lemma MatchExact(m: Model, ps: nat, r: Registers) returns (c: Choice)
    requires ModelOk(m) && ps < POSITION_STATES && r.range >= TOP && DecodeMatch(m, ps, r).Ok?
    ensures ChoiceOk(m.reps, c) && !c.Lit? && Replay(r, EncodeMatch(m, ps, c).ds).Some?
  {
    hide BitStep, Flip, Replay, Decide, DecodeNewMatch, EncodeNewMatch, DecodeRepetition, EncodeRepetition;
    hide LengthsOk, DistancesOk;
    var (isRep, n) := BitStep(r, m.isRep[m.state]).value;
    var m' := m.(isRep := Flip(m.isRep, m.state, isRep));
    if isRep == 0 {
      var offset, extra := NewMatchExact(m', ps, n);
      c := New(offset, extra);
      DecideReplays(r, m.isRep[m.state], isRep, EncodeNewMatch(m', ps, offset, extra));
    } else {
      c := RepetitionExact(m', ps, n);
      DecideReplays(r, m.isRep[m.state], isRep, EncodeRepetition(m', ps, c));
    }
  }

  lemma LiteralOpExact(m: Model, out: seq<byte>, r: Registers) returns (b: byte)
    requires ModelOk(m) && r.range >= TOP && DecodeLiteralOp(m, out, r).Ok?
    ensures Replay(r, EncodeLiteralOp(m, out, b).ds).Some?
  {
    hide DecodeLiteral, EncodeLiteral, Replay, LengthsOk, DistancesOk, LiteralModel, MatchByte;
    var base := LiteralBase(m.lc, m.lp, |out|, Previous(out));
    hide LiteralBase;
    b := DecodeLiteral(m.literal, base, m.state, MatchByte(out, m.reps[0]), r).value.value;
    LiteralInverse(m.literal, base, m.state, MatchByte(out, m.reps[0]), b, r);
  }

  /** Every operation that decodes is a choice an encoder may make, decoded from that choice's own decisions. */
  lemma OperationExact(m: Model, out: seq<byte>, r: Registers) returns (c: Choice)
    requires ModelOk(m) && r.range >= TOP && DecodeOperation(m, out, r).Ok?
    ensures ChoiceOk(m.reps, c) && Replay(r, Encode(m, out, c).ds).Some?
    ensures DecodeOperation(m, out, r)
         == Ok(OperationRead(Meaning(m.reps, c), Encode(m, out, c).m, Replay(r, Encode(m, out, c).ds).value))
  {
    hide BitStep, Flip, Replay, Decide, DecodeMatch, EncodeMatch, DecodeLiteralOp, EncodeLiteralOp;
    hide LengthsOk, DistancesOk, PositionState;
    var ps := PositionState(m, out);
    var combined := POSITION_STATES * m.state + ps;
    var (isMatch, n) := BitStep(r, m.isMatch[combined]).value;
    var m' := m.(isMatch := Flip(m.isMatch, combined, isMatch));
    if isMatch == 0 {
      var b := LiteralOpExact(m', out, n);
      c := Lit(b);
      DecideReplays(r, m.isMatch[combined], isMatch, EncodeLiteralOp(m', out, b));
    } else {
      c := MatchExact(m', ps, n);
      DecideReplays(r, m.isMatch[combined], isMatch, EncodeMatch(m', ps, c));
    }
    OperationInverse(m, out, c, r);
  }

  // ---- no other choice ----

  /** Both codes replay from the same registers. */
  ghost predicate Both(r: Registers, e: OperationCode, e': OperationCode)
    requires r.range >= TOP
  {
    Replay(r, e.ds).Some? && Replay(r, e'.ds).Some?
  }

  /** Then they begin with the same decision, and so do their tails after it. */
  lemma SameTurn(r: Registers, p: Prob, b: bit, tail: OperationCode, b': bit, tail': OperationCode)
    requires r.range >= TOP && Both(r, Decide(p, b, tail), Decide(p, b', tail'))
    ensures b == b' && BitStep(r, p).Ok? && Both(BitStep(r, p).value.1, tail, tail')
  {
    hide BitStep, Replay, Decide;
    DecideReplays(r, p, b, tail);
    DecideReplays(r, p, b', tail');
  }

  lemma RepLengthUnique(m: Model, ps: nat, reps: seq<u32>, extra: nat, extra': nat, r: Registers)
    requires ModelOk(m) && ps < POSITION_STATES && |reps| == 4 && extra < 272 && extra' < 272 && r.range >= TOP
    requires Both(r, EncodeRepLength(m, ps, reps, extra), EncodeRepLength(m, ps, reps, extra'))
    ensures extra == extra'
  {
    hide DecodeLength, EncodeLength, Replay, LengthsOk, DistancesOk, RepModel;
    LengthInverse(m.repLength, ps, extra, r);
    LengthInverse(m.repLength, ps, extra', r);
  }

  lemma RepZeroUnique(m: Model, ps: nat, c: Choice, c': Choice, r: Registers)
    requires ModelOk(m) && ps < POSITION_STATES && ChoiceOk(m.reps, c) && ChoiceOk(m.reps, c') && r.range >= TOP
    requires (c.Short? || (c.Again? && c.which == 0)) && (c'.Short? || (c'.Again? && c'.which == 0))
    requires Both(r, EncodeRepZero(m, ps, c), EncodeRepZero(m, ps, c'))
    ensures c == c'
  {
    hide BitStep, Flip, Replay, Decide, EncodeRepLength, LengthsOk, DistancesOk, ShortModel, Both;
    var combined := POSITION_STATES * m.state + ps;
    var long: bit, long': bit := if c.Short? then 0 else 1, if c'.Short? then 0 else 1;
    var m1 := m.(isRepZeroLong := Flip(m.isRepZeroLong, combined, long));
    var m2 := m.(isRepZeroLong := Flip(m.isRepZeroLong, combined, long'));
    SameTurn(r, m.isRepZeroLong[combined],
             long, if c.Short? then OperationCode([], ShortModel(m1)) else EncodeRepLength(m1, ps, m.reps, c.extra),
             long', if c'.Short? then OperationCode([], ShortModel(m2)) else EncodeRepLength(m2, ps, m.reps, c'.extra));
    if long == 1 {
      RepLengthUnique(m1, ps, m.reps, c.extra, c'.extra, BitStep(r, m.isRepZeroLong[combined]).value.1);
    }
  }

  lemma RepLaterUnique(m: Model, ps: nat, which: nat, extra: nat, which': nat, extra': nat, r: Registers)
    requires ModelOk(m) && ps < POSITION_STATES && r.range >= TOP
    requires 1 <= which < 4 && 1 <= which' < 4 && extra < 272 && extra' < 272
    requires Both(r, EncodeRepLater(m, ps, which, extra), EncodeRepLater(m, ps, which', extra'))
    ensures which == which' && extra == extra'
  {
    hide BitStep, Flip, Replay, Decide, EncodeRepLength, EncodeRepLast, LengthsOk, DistancesOk, Both;
    var one: bit, one': bit := if which == 1 then 0 else 1, if which' == 1 then 0 else 1;
    var m1, m2 := m.(isRepOne := Flip(m.isRepOne, m.state, one)), m.(isRepOne := Flip(m.isRepOne, m.state, one'));
    SameTurn(r, m.isRepOne[m.state],
             one, if which == 1 then EncodeRepLength(m1, ps, ToFront(m.reps, 1), extra)
                  else EncodeRepLast(m1, ps, which, extra),
             one', if which' == 1 then EncodeRepLength(m2, ps, ToFront(m.reps, 1), extra')
                   else EncodeRepLast(m2, ps, which', extra'));
    var n := BitStep(r, m.isRepOne[m.state]).value.1;
    if which == 1 {
      RepLengthUnique(m1, ps, ToFront(m.reps, 1), extra, extra', n);
    } else {
      RepLastUnique(m1, ps, which, extra, which', extra', n);
    }
  }

  lemma RepLastUnique(m: Model, ps: nat, which: nat, extra: nat, which': nat, extra': nat, r: Registers)
    requires ModelOk(m) && ps < POSITION_STATES && r.range >= TOP
    requires 2 <= which < 4 && 2 <= which' < 4 && extra < 272 && extra' < 272
    requires Both(r, EncodeRepLast(m, ps, which, extra), EncodeRepLast(m, ps, which', extra'))
    ensures which == which' && extra == extra'
  {
    hide BitStep, Flip, Replay, Decide, EncodeRepLength, LengthsOk, DistancesOk, Both;
    var two: bit, two': bit := which - 2, which' - 2;
    var m1, m2 := m.(isRepTwo := Flip(m.isRepTwo, m.state, two)), m.(isRepTwo := Flip(m.isRepTwo, m.state, two'));
    SameTurn(r, m.isRepTwo[m.state], two, EncodeRepLength(m1, ps, ToFront(m.reps, which), extra),
             two', EncodeRepLength(m2, ps, ToFront(m.reps, which'), extra'));
    RepLengthUnique(m1, ps, ToFront(m.reps, which), extra, extra', BitStep(r, m.isRepTwo[m.state]).value.1);
  }

  lemma RepetitionUnique(m: Model, ps: nat, c: Choice, c': Choice, r: Registers)
    requires ModelOk(m) && ps < POSITION_STATES && ChoiceOk(m.reps, c) && ChoiceOk(m.reps, c') && r.range >= TOP
    requires (c.Short? || c.Again?) && (c'.Short? || c'.Again?)
    requires Both(r, EncodeRepetition(m, ps, c), EncodeRepetition(m, ps, c'))
    ensures c == c'
  {
    hide BitStep, Flip, Replay, Decide, EncodeRepZero, EncodeRepLater, LengthsOk, DistancesOk, Both;
    var zero: bit := if c.Short? || c.which == 0 then 0 else 1;
    var zero': bit := if c'.Short? || c'.which == 0 then 0 else 1;
    var m1, m2 := m.(isRepZero := Flip(m.isRepZero, m.state, zero)), m.(isRepZero := Flip(m.isRepZero, m.state, zero'));
    SameTurn(r, m.isRepZero[m.state],
             zero, if zero == 0 then EncodeRepZero(m1, ps, c) else EncodeRepLater(m1, ps, c.which, c.extra),
             zero', if zero' == 0 then EncodeRepZero(m2, ps, c') else EncodeRepLater(m2, ps, c'.which, c'.extra));
    var n := BitStep(r, m.isRepZero[m.state]).value.1;
    if zero == 0 {
      RepZeroUnique(m1, ps, c, c', n);
    } else {
      RepLaterUnique(m1, ps, c.which, c.extra, c'.which, c'.extra, n);
    }
  }

  lemma NewMatchUnique(m: Model, ps: nat, offset: u32, extra: nat, offset': u32, extra': nat, r: Registers)
    requires ModelOk(m) && ps < POSITION_STATES && extra < 272 && extra' < 272 && r.range >= TOP
    requires Both(r, EncodeNewMatch(m, ps, offset, extra), EncodeNewMatch(m, ps, offset', extra'))
    ensures offset == offset' && extra == extra'
  {
    hide DecodeLength, EncodeLength, DecodeDistance, EncodeDistance, Replay, LengthsOk, DistancesOk, MatchModel;
    ReplayAppend(r, EncodeLength(m.length, ps, extra).ds, EncodeDistance(m.distance, extra, offset).ds);
    ReplayAppend(r, EncodeLength(m.length, ps, extra').ds, EncodeDistance(m.distance, extra', offset').ds);
    LengthInverse(m.length, ps, extra, r);
    LengthInverse(m.length, ps, extra', r);
    var n := Replay(r, EncodeLength(m.length, ps, extra).ds).value;
    DistanceInverse(m.distance, extra, offset, n);
    DistanceInverse(m.distance, extra, offset', n);
  }

  lemma MatchUnique(m: Model, ps: nat, c: Choice, c': Choice, r: Registers)
    requires ModelOk(m) && ps < POSITION_STATES && ChoiceOk(m.reps, c) && ChoiceOk(m.reps, c') && r.range >= TOP
    requires !c.Lit? && !c'.Lit? && Both(r, EncodeMatch(m, ps, c), EncodeMatch(m, ps, c'))
    ensures c == c'
  {
    hide BitStep, Flip, Replay, Decide, EncodeNewMatch, EncodeRepetition, LengthsOk, DistancesOk, Both;
    var isRep: bit, isRep': bit := if c.New? then 0 else 1, if c'.New? then 0 else 1;
    var m1, m2 := m.(isRep := Flip(m.isRep, m.state, isRep)), m.(isRep := Flip(m.isRep, m.state, isRep'));
    SameTurn(r, m.isRep[m.state],
             isRep, if c.New? then EncodeNewMatch(m1, ps, c.offset, c.extra) else EncodeRepetition(m1, ps, c),
             isRep', if c'.New? then EncodeNewMatch(m2, ps, c'.offset, c'.extra) else EncodeRepetition(m2, ps, c'));
    var n := BitStep(r, m.isRep[m.state]).value.1;
    if c.New? {
      NewMatchUnique(m1, ps, c.offset, c.extra, c'.offset, c'.extra, n);
    } else {
      RepetitionUnique(m1, ps, c, c', n);
    }
  }

  lemma LiteralOpUnique(m: Model, out: seq<byte>, b: byte, b': byte, r: Registers)
    requires ModelOk(m) && r.range >= TOP && Both(r, EncodeLiteralOp(m, out, b), EncodeLiteralOp(m, out, b'))
    ensures b == b'
  {
    hide DecodeLiteral, EncodeLiteral, Replay, LengthsOk, DistancesOk, LiteralModel, MatchByte;
    var base := LiteralBase(m.lc, m.lp, |out|, Previous(out));
    hide LiteralBase;
    LiteralInverse(m.literal, base, m.state, MatchByte(out, m.reps[0]), b, r);
    LiteralInverse(m.literal, base, m.state, MatchByte(out, m.reps[0]), b', r);
  }

  /** The decisions of different choices never replay from the same registers. */
  lemma OperationUnique(m: Model, out: seq<byte>, c: Choice, c': Choice, r: Registers)
    requires ModelOk(m) && ChoiceOk(m.reps, c) && ChoiceOk(m.reps, c') && r.range >= TOP
    requires Both(r, Encode(m, out, c), Encode(m, out, c'))
    ensures c == c'
  {
    hide BitStep, Flip, Replay, Decide, EncodeMatch, EncodeLiteralOp, LengthsOk, DistancesOk, PositionState, Both;
    var ps := PositionState(m, out);
    var combined := POSITION_STATES * m.state + ps;
    var isMatch: bit, isMatch': bit := if c.Lit? then 0 else 1, if c'.Lit? then 0 else 1;
    var m1 := m.(isMatch := Flip(m.isMatch, combined, isMatch));
    var m2 := m.(isMatch := Flip(m.isMatch, combined, isMatch'));
    SameTurn(r, m.isMatch[combined],
             isMatch, if c.Lit? then EncodeLiteralOp(m1, out, c.b) else EncodeMatch(m1, ps, c),
             isMatch', if c'.Lit? then EncodeLiteralOp(m2, out, c'.b) else EncodeMatch(m2, ps, c'));
    var n := BitStep(r, m.isMatch[combined]).value.1;
    if c.Lit? {
      LiteralOpUnique(m1, out, c.b, c'.b, n);
    } else {
      MatchUnique(m1, ps, c, c', n);
    }
  }
}
