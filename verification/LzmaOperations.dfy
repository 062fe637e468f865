/** The LZMA state machine: one operation at a time, and its encoder. */
module LzmaOperations {
  import opened Prelude
  import opened LzmaRange
  import opened LzmaTrees
  import opened LzmaSymbols

  const STATES: nat := 12
  const EOS: u32 := 0xffff_ffff
  const MIN_MATCH: nat := 2

  datatype Operation =
    | Literal(b: byte)
    | Match(distance: nat, length: nat)
    | End

  /** Everything the decoder adapts, and its three properties. */
  datatype Model = Model(
    lc: nat, lp: nat, pb: nat,
    reps: seq<u32>,
    isMatch: seq<Prob>, isRepZeroLong: seq<Prob>,
    isRep: seq<Prob>, isRepZero: seq<Prob>, isRepOne: seq<Prob>, isRepTwo: seq<Prob>,
    literal: seq<Prob>, length: Lengths, repLength: Lengths, distance: Distances,
    state: nat)

  predicate ModelOk(m: Model) {
    && m.lc + m.lp <= 4 && m.pb <= 4
    && |m.reps| == 4
    && |m.isMatch| == STATES * POSITION_STATES && |m.isRepZeroLong| == STATES * POSITION_STATES
    && |m.isRep| == STATES && |m.isRepZero| == STATES && |m.isRepOne| == STATES && |m.isRepTwo| == STATES
    && |m.literal| == 0x300 * Pow2(m.lc + m.lp)
    && LengthsOk(m.length) && LengthsOk(m.repLength) && DistancesOk(m.distance)
    && m.state < STATES
  }

  function FreshModel(lc: nat, lp: nat, pb: nat): (m: Model)
    requires lc + lp <= 4 && pb <= 4
    ensures ModelOk(m)
  {
    Model(lc, lp, pb, [0, 0, 0, 0],
          Fresh(STATES * POSITION_STATES), Fresh(STATES * POSITION_STATES),
          Fresh(STATES), Fresh(STATES), Fresh(STATES), Fresh(STATES),
          Fresh(0x300 * Pow2(lc + lp)), FreshLengths(), FreshLengths(), FreshDistances(), 0)
  }

  function AfterLiteral(state: nat): (s: nat)
    requires state < STATES
    ensures s < 7 && s <= state
  {
    if state < 4 then 0 else if state < 10 then state - 3 else state - 6
  }

  function AfterMatch(state: nat): nat {
    if state < 7 then 7 else 10
  }

  function AfterRepetition(state: nat): nat {
    if state < 7 then 8 else 11
  }

  function AfterShort(state: nat): nat {
    if state < 7 then 9 else 11
  }

  // ---- what an operation sees of the output ----

  function Previous(out: seq<byte>): byte {
    if out == [] then 0 else out[|out| - 1]
  }

  function MatchByte(out: seq<byte>, offset: nat): byte {
    if offset + 1 <= |out| then out[|out| - (offset + 1)] else 0
  }

  function PositionState(m: Model, out: seq<byte>): (ps: nat)
    requires m.pb <= 4
    ensures ps < POSITION_STATES
  {
    Pow2Order(m.pb, 4);
    assert Pow2(4) == 16;
    |out| % Pow2(m.pb)
  }

  datatype OperationRead = OperationRead(op: Operation, m: Model, next: Registers)

  predicate ReadOk(d: OperationRead) {
    ModelOk(d.m) && d.next.range >= TOP
  }

  function Flip(s: seq<Prob>, i: nat, b: bit): (t: seq<Prob>)
    requires i < |s|
    ensures |t| == |s|
  {
    s[i := Adapt(s[i], b)]
  }

  /** `decode_operation`: a literal, a match with a new distance, or a repetition. */
  function DecodeOperation(m: Model, out: seq<byte>, r: Registers): (d: Result<OperationRead>)
    requires ModelOk(m) && r.range >= TOP
    ensures d.Ok? ==> ReadOk(d.value)
  {
    hide BitStep, Flip, LengthsOk, DistancesOk;
    var ps := PositionState(m, out);
    var combined := POSITION_STATES * m.state + ps;
    var (isMatch, n) :- BitStep(r, m.isMatch[combined]);
    var m' := m.(isMatch := Flip(m.isMatch, combined, isMatch));
    if isMatch == 0 then DecodeLiteralOp(m', out, n) else DecodeMatch(m', ps, n)
  }

  function LiteralModel(m: Model, probs: seq<Prob>): (m': Model)
    requires ModelOk(m) && |probs| == |m.literal|
    ensures ModelOk(m')
  {
    m.(literal := probs, state := AfterLiteral(m.state))
  }

  function DecodeLiteralOp(m: Model, out: seq<byte>, r: Registers): (d: Result<OperationRead>)
    requires ModelOk(m) && r.range >= TOP
    ensures d.Ok? ==> ReadOk(d.value)
  {
    hide LengthsOk, DistancesOk, DecodeLiteral, LiteralModel;
    var base := LiteralBase(m.lc, m.lp, |out|, Previous(out));
    var l :- DecodeLiteral(m.literal, base, m.state, MatchByte(out, m.reps[0]), r);
    Ok(OperationRead(Literal(l.value), LiteralModel(m, l.probs), l.next))
  }

  function DecodeMatch(m: Model, ps: nat, r: Registers): (d: Result<OperationRead>)
    requires ModelOk(m) && ps < POSITION_STATES && r.range >= TOP
    ensures d.Ok? ==> ReadOk(d.value)
  {
    hide BitStep, Flip, LengthsOk, DistancesOk;
    var (isRep, n) :- BitStep(r, m.isRep[m.state]);
    var m' := m.(isRep := Flip(m.isRep, m.state, isRep));
    if isRep == 0 then DecodeNewMatch(m', ps, n) else DecodeRepetition(m', ps, n)
  }

  function MatchModel(m: Model, offset: u32, length: Lengths, distance: Distances): (m': Model)
    requires ModelOk(m) && LengthsOk(length) && DistancesOk(distance)
    ensures ModelOk(m')
  {
    m.(reps := [offset] + m.reps[..3], state := AfterMatch(m.state), length := length, distance := distance)
  }

  function RepModel(m: Model, reps: seq<u32>, repLength: Lengths): (m': Model)
    requires ModelOk(m) && |reps| == 4 && LengthsOk(repLength)
    ensures ModelOk(m')
  {
    m.(reps := reps, repLength := repLength, state := AfterRepetition(m.state))
  }

  function ShortModel(m: Model): (m': Model)
    requires ModelOk(m)
    ensures ModelOk(m')
  {
    m.(state := AfterShort(m.state))
  }

  function NewMatch(offset: u32, extra: nat): Operation {
    if offset == EOS then End else Match(offset + 1, extra + MIN_MATCH)
  }

  function DecodeNewMatch(m: Model, ps: nat, r: Registers): (d: Result<OperationRead>)
    requires ModelOk(m) && ps < POSITION_STATES && r.range >= TOP
    ensures d.Ok? ==> ReadOk(d.value)
  {
    hide DecodeLength, DecodeDistance, LengthsOk, DistancesOk, MatchModel;
    var len :- DecodeLength(m.length, ps, r);
    var dist :- DecodeDistance(m.distance, len.value, len.next);
    Ok(OperationRead(NewMatch(dist.value, len.value), MatchModel(m, dist.value, len.m, dist.m), dist.next))
  }

  /** The repeated distance moves to the front of the four. */
  function ToFront(reps: seq<u32>, k: nat): seq<u32>
    requires k < |reps|
  {
    [reps[k]] + reps[..k] + reps[k + 1..]
  }

  function DecodeRepetition(m: Model, ps: nat, r: Registers): (d: Result<OperationRead>)
    requires ModelOk(m) && ps < POSITION_STATES && r.range >= TOP
    ensures d.Ok? ==> ReadOk(d.value)
  {
    hide BitStep, Flip, LengthsOk, DistancesOk;
    var (zero, n) :- BitStep(r, m.isRepZero[m.state]);
    var m' := m.(isRepZero := Flip(m.isRepZero, m.state, zero));
    if zero == 0 then DecodeRepZero(m', ps, n) else DecodeRepLater(m', ps, n)
  }

  function DecodeRepZero(m: Model, ps: nat, r: Registers): (d: Result<OperationRead>)
    requires ModelOk(m) && ps < POSITION_STATES && r.range >= TOP
    ensures d.Ok? ==> ReadOk(d.value)
  {
    hide BitStep, Flip, LengthsOk, DistancesOk, ShortModel;
    var combined := POSITION_STATES * m.state + ps;
    var (long, n) :- BitStep(r, m.isRepZeroLong[combined]);
    var m' := m.(isRepZeroLong := Flip(m.isRepZeroLong, combined, long));
    if long == 1 then DecodeRepLength(m', ps, m.reps, n)
    else if m.reps[0] == EOS then Err(Format)
    else Ok(OperationRead(Match(m.reps[0] + 1, 1), ShortModel(m'), n))
  }

  function DecodeRepLater(m: Model, ps: nat, r: Registers): (d: Result<OperationRead>)
    requires ModelOk(m) && ps < POSITION_STATES && r.range >= TOP
    ensures d.Ok? ==> ReadOk(d.value)
  {
    hide BitStep, Flip, LengthsOk, DistancesOk;
    var (one, n) :- BitStep(r, m.isRepOne[m.state]);
    var m' := m.(isRepOne := Flip(m.isRepOne, m.state, one));
    if one == 0 then DecodeRepLength(m', ps, ToFront(m.reps, 1), n) else DecodeRepLast(m', ps, n)
  }

  function DecodeRepLast(m: Model, ps: nat, r: Registers): (d: Result<OperationRead>)
    requires ModelOk(m) && ps < POSITION_STATES && r.range >= TOP
    ensures d.Ok? ==> ReadOk(d.value)
  {
    hide BitStep, Flip, LengthsOk, DistancesOk;
    var (two, n) :- BitStep(r, m.isRepTwo[m.state]);
    var m' := m.(isRepTwo := Flip(m.isRepTwo, m.state, two));
    DecodeRepLength(m', ps, ToFront(m.reps, 2 + two), n)
  }

  /** The length of a repetition of `reps[0]`, which must not be the end marker. */
  function DecodeRepLength(m: Model, ps: nat, reps: seq<u32>, r: Registers): (d: Result<OperationRead>)
    requires ModelOk(m) && ps < POSITION_STATES && |reps| == 4 && r.range >= TOP
    ensures d.Ok? ==> ReadOk(d.value)
  {
    hide DecodeLength, LengthsOk, DistancesOk, RepModel;
    var len :- DecodeLength(m.repLength, ps, r);
    if reps[0] == EOS then Err(Format)
    else Ok(OperationRead(Match(reps[0] + 1, len.value + MIN_MATCH), RepModel(m, reps, len.m), len.next))
  }

  // ---- the encoder ----

  /** What an encoder chooses to say. */
  datatype Choice =
    | Lit(b: byte)
    | New(offset: u32, extra: nat)
    | Short
    | Again(which: nat, extra: nat)

  /** Lengths the format can express, and no repetition of the end marker. */
  predicate ChoiceOk(reps: seq<u32>, c: Choice)
    requires |reps| == 4
  {
    match c
    case Lit(_) => true
    case New(_, extra) => extra < 272
    case Short => reps[0] != EOS
    case Again(which, extra) => which < 4 && extra < 272 && reps[which] != EOS
  }

  function Meaning(reps: seq<u32>, c: Choice): Operation
    requires |reps| == 4 && ChoiceOk(reps, c)
  {
    match c
    case Lit(b) => Literal(b)
    case New(offset, extra) => NewMatch(offset, extra)
    case Short => Match(reps[0] + 1, 1)
    case Again(k, extra) => Match(reps[k] + 1, extra + MIN_MATCH)
  }

  /** The four remembered distances afterwards. */
  function NextReps(reps: seq<u32>, c: Choice): (next: seq<u32>)
    requires |reps| == 4 && ChoiceOk(reps, c)
    ensures |next| == 4
  {
    match c
    case Lit(_) => reps
    case New(offset, _) => [offset] + reps[..3]
    case Short => reps
    case Again(k, _) => ToFront(reps, k)
  }

  datatype OperationCode = OperationCode(ds: seq<Decision>, m: Model)

  /** One adaptive decision in front of what follows it. */
  function Decide(p: Prob, b: bit, tail: OperationCode): OperationCode {
    OperationCode([Adaptive(p, b)] + tail.ds, tail.m)
  }

  function Encode(m: Model, out: seq<byte>, c: Choice): (e: OperationCode)
    requires ModelOk(m) && ChoiceOk(m.reps, c)
    ensures ModelOk(e.m)
  {
    hide BitStep, Flip, LengthsOk, DistancesOk, LiteralBase, MatchByte;
    var ps := PositionState(m, out);
    var combined := POSITION_STATES * m.state + ps;
    var isMatch: bit := if c.Lit? then 0 else 1;
    var m' := m.(isMatch := Flip(m.isMatch, combined, isMatch));
    Decide(m.isMatch[combined], isMatch,
           if c.Lit? then EncodeLiteralOp(m', out, c.b) else EncodeMatch(m', ps, c))
  }

  function EncodeLiteralOp(m: Model, out: seq<byte>, b: byte): (e: OperationCode)
    requires ModelOk(m)
    ensures ModelOk(e.m)
  {
    hide LengthsOk, DistancesOk, EncodeLiteral, LiteralModel;
    var base := LiteralBase(m.lc, m.lp, |out|, Previous(out));
    var l := EncodeLiteral(m.literal, base, m.state, MatchByte(out, m.reps[0]), b);
    OperationCode(l.ds, LiteralModel(m, l.probs))
  }

  function EncodeMatch(m: Model, ps: nat, c: Choice): (e: OperationCode)
    requires ModelOk(m) && ps < POSITION_STATES && ChoiceOk(m.reps, c) && !c.Lit?
    ensures ModelOk(e.m)
  {
    hide BitStep, Flip, LengthsOk, DistancesOk;
    var isRep: bit := if c.New? then 0 else 1;
    var m' := m.(isRep := Flip(m.isRep, m.state, isRep));
    Decide(m.isRep[m.state], isRep,
           if c.New? then EncodeNewMatch(m', ps, c.offset, c.extra) else EncodeRepetition(m', ps, c))
  }

  function EncodeNewMatch(m: Model, ps: nat, offset: u32, extra: nat): (e: OperationCode)
    requires ModelOk(m) && ps < POSITION_STATES && extra < 272
    ensures ModelOk(e.m)
  {
    hide EncodeLength, EncodeDistance, LengthsOk, DistancesOk, MatchModel;
    var len := EncodeLength(m.length, ps, extra);
    var dist := EncodeDistance(m.distance, extra, offset);
    OperationCode(len.ds + dist.ds, MatchModel(m, offset, len.m, dist.m))
  }

  function EncodeRepetition(m: Model, ps: nat, c: Choice): (e: OperationCode)
    requires ModelOk(m) && ps < POSITION_STATES && ChoiceOk(m.reps, c) && (c.Short? || c.Again?)
    ensures ModelOk(e.m)
  {
    hide BitStep, Flip, LengthsOk, DistancesOk;
    var zero: bit := if c.Short? || c.which == 0 then 0 else 1;
    var m' := m.(isRepZero := Flip(m.isRepZero, m.state, zero));
    Decide(m.isRepZero[m.state], zero,
           if zero == 0 then EncodeRepZero(m', ps, c) else EncodeRepLater(m', ps, c.which, c.extra))
  }

  function EncodeRepZero(m: Model, ps: nat, c: Choice): (e: OperationCode)
    requires ModelOk(m) && ps < POSITION_STATES && ChoiceOk(m.reps, c) && (c.Short? || (c.Again? && c.which == 0))
    ensures ModelOk(e.m)
  {
    hide BitStep, Flip, LengthsOk, DistancesOk, ShortModel;
    var combined := POSITION_STATES * m.state + ps;
    var long: bit := if c.Short? then 0 else 1;
    var m' := m.(isRepZeroLong := Flip(m.isRepZeroLong, combined, long));
    Decide(m.isRepZeroLong[combined], long,
           if c.Short? then OperationCode([], ShortModel(m')) else EncodeRepLength(m', ps, m.reps, c.extra))
  }

  function EncodeRepLater(m: Model, ps: nat, which: nat, extra: nat): (e: OperationCode)
    requires ModelOk(m) && ps < POSITION_STATES && 1 <= which < 4 && extra < 272
    ensures ModelOk(e.m)
  {
    hide BitStep, Flip, LengthsOk, DistancesOk;
    var one: bit := if which == 1 then 0 else 1;
    var m' := m.(isRepOne := Flip(m.isRepOne, m.state, one));
    Decide(m.isRepOne[m.state], one,
           if which == 1 then EncodeRepLength(m', ps, ToFront(m.reps, 1), extra)
           else EncodeRepLast(m', ps, which, extra))
  }

  function EncodeRepLast(m: Model, ps: nat, which: nat, extra: nat): (e: OperationCode)
    requires ModelOk(m) && ps < POSITION_STATES && 2 <= which < 4 && extra < 272
    ensures ModelOk(e.m)
  {
    hide BitStep, Flip, LengthsOk, DistancesOk;
    var two: bit := which - 2;
    var m' := m.(isRepTwo := Flip(m.isRepTwo, m.state, two));
    Decide(m.isRepTwo[m.state], two, EncodeRepLength(m', ps, ToFront(m.reps, which), extra))
  }

  function EncodeRepLength(m: Model, ps: nat, reps: seq<u32>, extra: nat): (e: OperationCode)
    requires ModelOk(m) && ps < POSITION_STATES && |reps| == 4 && extra < 272
    ensures ModelOk(e.m)
  {
    hide EncodeLength, LengthsOk, DistancesOk, RepModel;
    var len := EncodeLength(m.repLength, ps, extra);
    OperationCode(len.ds, RepModel(m, reps, len.m))
  }

  // ---- decoding inverts encoding ----

  /** Whenever the decisions of `e` replay, `d` is `op`, in lockstep with the encoder. */
  ghost predicate Inverts(d: Result<OperationRead>, op: Operation, e: OperationCode, r: Registers)
    requires r.range >= TOP
  {
    Replay(r, e.ds).Some? ==> d == Ok(OperationRead(op, e.m, Replay(r, e.ds).value))
  }

  /** Peeling off one decision. */
  lemma DecideReplays(r: Registers, p: Prob, b: bit, tail: OperationCode)
    requires r.range >= TOP
    ensures BitStep(r, p).Err? || BitStep(r, p).value.0 != b ==> Replay(r, Decide(p, b, tail).ds).None?
    ensures BitStep(r, p).Ok? && BitStep(r, p).value.0 == b ==>
              Replay(r, Decide(p, b, tail).ds) == Replay(BitStep(r, p).value.1, tail.ds)
    ensures Decide(p, b, tail).m == tail.m
  {
    hide BitStep, Replay;
    ReplayBit(r, p, b, tail.ds);
  }

  lemma RepLengthInverse(m: Model, ps: nat, reps: seq<u32>, extra: nat, r: Registers)
    requires ModelOk(m) && ps < POSITION_STATES && |reps| == 4 && extra < 272 && r.range >= TOP && reps[0] != EOS
    ensures Inverts(DecodeRepLength(m, ps, reps, r), Match(reps[0] + 1, extra + MIN_MATCH),
                    EncodeRepLength(m, ps, reps, extra), r)
  {
    hide DecodeLength, EncodeLength, Replay, LengthsOk, DistancesOk, RepModel;
    LengthInverse(m.repLength, ps, extra, r);
  }

  lemma RepZeroInverse(m: Model, ps: nat, c: Choice, r: Registers)
    requires ModelOk(m) && ps < POSITION_STATES && ChoiceOk(m.reps, c) && (c.Short? || (c.Again? && c.which == 0))
    requires r.range >= TOP
    ensures Inverts(DecodeRepZero(m, ps, r), Meaning(m.reps, c), EncodeRepZero(m, ps, c), r)
  {
    hide BitStep, Flip, Replay, Decide, DecodeRepLength, EncodeRepLength, LengthsOk, DistancesOk, ShortModel;
    var combined := POSITION_STATES * m.state + ps;
    var long: bit := if c.Short? then 0 else 1;
    var m' := m.(isRepZeroLong := Flip(m.isRepZeroLong, combined, long));
    var x := BitStep(r, m.isRepZeroLong[combined]);
    var tail := if c.Short? then OperationCode([], ShortModel(m')) else EncodeRepLength(m', ps, m.reps, c.extra);
    DecideReplays(r, m.isRepZeroLong[combined], long, tail);
    if x.Ok? && x.value.0 == long {
      ReplayNone(x.value.1);
      if c.Again? {
        RepLengthInverse(m', ps, m.reps, c.extra, x.value.1);
      }
    }
  }

  lemma RepLastInverse(m: Model, ps: nat, which: nat, extra: nat, r: Registers)
    requires ModelOk(m) && ps < POSITION_STATES && 2 <= which < 4 && extra < 272 && m.reps[which] != EOS
    requires r.range >= TOP
    ensures Inverts(DecodeRepLast(m, ps, r), Match(m.reps[which] + 1, extra + MIN_MATCH),
                    EncodeRepLast(m, ps, which, extra), r)
  {
    hide BitStep, Flip, Replay, Decide, DecodeRepLength, EncodeRepLength, LengthsOk, DistancesOk;
    var two: bit := which - 2;
    var m' := m.(isRepTwo := Flip(m.isRepTwo, m.state, two));
    var x := BitStep(r, m.isRepTwo[m.state]);
    DecideReplays(r, m.isRepTwo[m.state], two, EncodeRepLength(m', ps, ToFront(m.reps, which), extra));
    if x.Ok? && x.value.0 == two {
      RepLengthInverse(m', ps, ToFront(m.reps, which), extra, x.value.1);
    }
  }

  lemma RepLaterInverse(m: Model, ps: nat, which: nat, extra: nat, r: Registers)
    requires ModelOk(m) && ps < POSITION_STATES && 1 <= which < 4 && extra < 272 && m.reps[which] != EOS
    requires r.range >= TOP
    ensures Inverts(DecodeRepLater(m, ps, r), Match(m.reps[which] + 1, extra + MIN_MATCH),
                    EncodeRepLater(m, ps, which, extra), r)
  {
    hide BitStep, Flip, Replay, Decide, DecodeRepLength, EncodeRepLength, DecodeRepLast, EncodeRepLast;
    hide LengthsOk, DistancesOk;
    var one: bit := if which == 1 then 0 else 1;
    var m' := m.(isRepOne := Flip(m.isRepOne, m.state, one));
    var x := BitStep(r, m.isRepOne[m.state]);
    var tail := if which == 1 then EncodeRepLength(m', ps, ToFront(m.reps, 1), extra)
                else EncodeRepLast(m', ps, which, extra);
    DecideReplays(r, m.isRepOne[m.state], one, tail);
    if x.Ok? && x.value.0 == one {
      if which == 1 {
        RepLengthInverse(m', ps, ToFront(m.reps, 1), extra, x.value.1);
      } else {
        RepLastInverse(m', ps, which, extra, x.value.1);
      }
    }
  }

  lemma RepetitionInverse(m: Model, ps: nat, c: Choice, r: Registers)
    requires ModelOk(m) && ps < POSITION_STATES && ChoiceOk(m.reps, c) && (c.Short? || c.Again?)
    requires r.range >= TOP
    ensures Inverts(DecodeRepetition(m, ps, r), Meaning(m.reps, c), EncodeRepetition(m, ps, c), r)
  {
    hide BitStep, Flip, Replay, Decide, DecodeRepZero, EncodeRepZero, DecodeRepLater, EncodeRepLater;
    hide LengthsOk, DistancesOk;
    var zero: bit := if c.Short? || c.which == 0 then 0 else 1;
    var m' := m.(isRepZero := Flip(m.isRepZero, m.state, zero));
    var x := BitStep(r, m.isRepZero[m.state]);
    var tail := if zero == 0 then EncodeRepZero(m', ps, c) else EncodeRepLater(m', ps, c.which, c.extra);
    DecideReplays(r, m.isRepZero[m.state], zero, tail);
    if x.Ok? && x.value.0 == zero {
      if zero == 0 {
        RepZeroInverse(m', ps, c, x.value.1);
      } else {
        RepLaterInverse(m', ps, c.which, c.extra, x.value.1);
      }
    }
  }

  lemma NewMatchInverse(m: Model, ps: nat, offset: u32, extra: nat, r: Registers)
    requires ModelOk(m) && ps < POSITION_STATES && extra < 272 && r.range >= TOP
    ensures Inverts(DecodeNewMatch(m, ps, r), NewMatch(offset, extra), EncodeNewMatch(m, ps, offset, extra), r)
  {
    hide DecodeLength, EncodeLength, DecodeDistance, EncodeDistance, Replay, LengthsOk, DistancesOk, MatchModel;
    var len, dist := EncodeLength(m.length, ps, extra), EncodeDistance(m.distance, extra, offset);
    ReplayAppend(r, len.ds, dist.ds);
    LengthInverse(m.length, ps, extra, r);
    if Replay(r, len.ds).Some? {
      var n := Replay(r, len.ds).value;
      if Replay(n, dist.ds).Some? {
        DistanceInverse(m.distance, extra, offset, n);
      }
    }
  }

  lemma LiteralOpInverse(m: Model, out: seq<byte>, b: byte, r: Registers)
    requires ModelOk(m) && r.range >= TOP
    ensures Inverts(DecodeLiteralOp(m, out, r), Literal(b), EncodeLiteralOp(m, out, b), r)
  {
    hide DecodeLiteral, EncodeLiteral, Replay, LengthsOk, DistancesOk, LiteralModel, MatchByte;
    var base := LiteralBase(m.lc, m.lp, |out|, Previous(out));
    hide LiteralBase;
    if Replay(r, EncodeLiteralOp(m, out, b).ds).Some? {
      LiteralInverse(m.literal, base, m.state, MatchByte(out, m.reps[0]), b, r);
    }
  }

  lemma MatchInverse(m: Model, ps: nat, c: Choice, r: Registers)
    requires ModelOk(m) && ps < POSITION_STATES && ChoiceOk(m.reps, c) && !c.Lit? && r.range >= TOP
    ensures Inverts(DecodeMatch(m, ps, r), Meaning(m.reps, c), EncodeMatch(m, ps, c), r)
  {
    hide BitStep, Flip, Replay, Decide, DecodeNewMatch, EncodeNewMatch, DecodeRepetition, EncodeRepetition;
    hide LengthsOk, DistancesOk;
    var isRep: bit := if c.New? then 0 else 1;
    var m' := m.(isRep := Flip(m.isRep, m.state, isRep));
    var x := BitStep(r, m.isRep[m.state]);
    var tail := if c.New? then EncodeNewMatch(m', ps, c.offset, c.extra) else EncodeRepetition(m', ps, c);
    DecideReplays(r, m.isRep[m.state], isRep, tail);
    if x.Ok? && x.value.0 == isRep {
      if c.New? {
        NewMatchInverse(m', ps, c.offset, c.extra, x.value.1);
      } else {
        RepetitionInverse(m', ps, c, x.value.1);
      }
    }
  }

  /** Whatever an encoder chooses, one decoded operation is that choice, and both models adapt alike. */
  lemma OperationInverse(m: Model, out: seq<byte>, c: Choice, r: Registers)
    requires ModelOk(m) && ChoiceOk(m.reps, c) && r.range >= TOP
    ensures Inverts(DecodeOperation(m, out, r), Meaning(m.reps, c), Encode(m, out, c), r)
  {
    hide BitStep, Flip, Replay, Decide, DecodeMatch, EncodeMatch, DecodeLiteralOp, EncodeLiteralOp;
    hide LengthsOk, DistancesOk, PositionState;
    var ps := PositionState(m, out);
    var combined := POSITION_STATES * m.state + ps;
    var isMatch: bit := if c.Lit? then 0 else 1;
    var m' := m.(isMatch := Flip(m.isMatch, combined, isMatch));
    var x := BitStep(r, m.isMatch[combined]);
    var tail := if c.Lit? then EncodeLiteralOp(m', out, c.b) else EncodeMatch(m', ps, c);
    DecideReplays(r, m.isMatch[combined], isMatch, tail);
    if x.Ok? && x.value.0 == isMatch {
      if c.Lit? {
        LiteralOpInverse(m', out, c.b, x.value.1);
      } else {
        MatchInverse(m', ps, c, x.value.1);
      }
    }
  }

  // ---- every run ----

  /** The end marker is never remembered as a distance while decoding goes on. */
  predicate RepsBelow(m: Model)
    requires |m.reps| == 4
  {
    forall k | 0 <= k < 4 :: m.reps[k] != EOS
  }

  /** What one operation does to the remembered distances, the state and the properties. */
  ghost predicate Keeps(m: Model, d: OperationRead)
    requires |m.reps| == 4 && |d.m.reps| == 4
  {
    && d.m.lc == m.lc && d.m.lp == m.lp && d.m.pb == m.pb
    && (RepsBelow(m) ==> (RepsBelow(d.m) <==> !d.op.End?))
    && (d.op.Match? ==> d.op.distance - 1 == d.m.reps[0] && 1 <= d.op.length <= 273)
    && (d.op.Literal? <==> d.m.state < 7)
  }

  lemma RepetitionKeeps(m: Model, ps: nat, r: Registers)
    requires ModelOk(m) && ps < POSITION_STATES && r.range >= TOP && DecodeRepetition(m, ps, r).Ok?
    ensures Keeps(m, DecodeRepetition(m, ps, r).value)
  {
    hide BitStep, Flip, LengthsOk, DistancesOk, DecodeLength;
  }

  lemma NewMatchKeeps(m: Model, ps: nat, r: Registers)
    requires ModelOk(m) && ps < POSITION_STATES && r.range >= TOP && DecodeNewMatch(m, ps, r).Ok?
    ensures Keeps(m, DecodeNewMatch(m, ps, r).value)
  {
    hide LengthsOk, DistancesOk, DecodeLength, DecodeDistance;
    var d := DecodeNewMatch(m, ps, r).value;
    ShiftKeeps(m.reps, d.m.reps);
  }

  /** A new distance in front of three old ones. */
  lemma ShiftKeeps(reps: seq<u32>, next: seq<u32>)
    requires |reps| == 4 && |next| == 4 && next[1..] == reps[..3]
    ensures (forall k | 0 <= k < 4 :: reps[k] != EOS)
        ==> ((forall k | 0 <= k < 4 :: next[k] != EOS) <==> next[0] != EOS)
  {
    assert forall k | 1 <= k < 4 :: next[k] == next[1..][k - 1] == reps[k - 1];
  }

  lemma MatchKeeps(m: Model, ps: nat, r: Registers)
    requires ModelOk(m) && ps < POSITION_STATES && r.range >= TOP && DecodeMatch(m, ps, r).Ok?
    ensures Keeps(m, DecodeMatch(m, ps, r).value)
  {
    hide BitStep, Flip, LengthsOk, DistancesOk, DecodeRepetition, DecodeNewMatch;
    var (isRep, n) := BitStep(r, m.isRep[m.state]).value;
    var m' := m.(isRep := Flip(m.isRep, m.state, isRep));
    if isRep == 1 {
      RepetitionKeeps(m', ps, n);
    } else {
      NewMatchKeeps(m', ps, n);
    }
  }

  lemma OperationKeeps(m: Model, out: seq<byte>, r: Registers)
    requires ModelOk(m) && r.range >= TOP && DecodeOperation(m, out, r).Ok?
    ensures Keeps(m, DecodeOperation(m, out, r).value)
  {
    hide BitStep, Flip, LengthsOk, DistancesOk, LiteralBase, DecodeLiteral, DecodeMatch, PositionState;
    var ps := PositionState(m, out);
    var combined := POSITION_STATES * m.state + ps;
    var (isMatch, n) := BitStep(r, m.isMatch[combined]).value;
    if isMatch == 1 {
      MatchKeeps(m.(isMatch := Flip(m.isMatch, combined, isMatch)), ps, n);
    }
  }
}
