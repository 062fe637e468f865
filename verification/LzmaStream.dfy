/** Whole range-coded LZMA streams: the operation loop, and what it undoes. */
module LzmaStream {
  import opened Prelude
  import opened Lz77
  import opened LzmaRange
  import opened LzmaOperations
  import LzmaSymbols

  /** The fixed limits of an output, and where its dictionary starts. */
  datatype Limits = Limits(maximum: nat, dictionary: nat, start: nat)

  datatype Ended = Ended(m: Model, out: seq<byte>)

  /** `Output::copy_match`: inside the dictionary, the history and the output limit. */
  function CopyMatch(out: seq<byte>, w: Limits, distance: nat, length: nat): Result<seq<byte>> {
    if distance == 0 || distance > w.dictionary || distance > |out| - w.start then Err(Format)
    else if |out| + length > w.maximum then Err(LimitExceeded)
    else Ok(Copied(out, distance, length))
  }

  function Push(out: seq<byte>, w: Limits, b: byte): Result<seq<byte>> {
    if |out| + 1 > w.maximum then Err(LimitExceeded) else Ok(out + [b])
  }

  /** The end marker: only with the code at zero, no input left, and the declared size reached. */
  function Finish(m: Model, out: seq<byte>, r: Registers, target: Option<nat>, requireEnd: bool): Result<Ended> {
    if r.code != 0 || r.rest != [] then Err(Format)
    else if target.Some? && target.value != |out| then Err(Format)
    else if requireEnd || target.Some? then Ok(Ended(m, out))
    else Err(Format)
  }

  /** What one operation other than the end marker makes of the output. */
  function Perform(op: Operation, out: seq<byte>, w: Limits, target: Option<nat>): (o: Result<seq<byte>>)
    requires !op.End? && (op.Match? ==> op.length >= 1)
    ensures o.Ok? ==> |out| < |o.value| <= w.maximum
  {
    match op
    case Literal(b) => Push(out, w, b)
    case Match(distance, length) =>
      if target.Some? && |out| + length > target.value then Err(Format) else CopyMatch(out, w, distance, length)
  }

  /** The loop of `decode_stream`; the output limit is its termination measure. */
  function Run(m: Model, out: seq<byte>, w: Limits, r: Registers, target: Option<nat>, requireEnd: bool)
    : (x: Result<Ended>)
    requires ModelOk(m) && r.range >= TOP
    ensures x.Ok? ==> ModelOk(x.value.m) && (target.Some? ==> |x.value.out| == target.value)
    decreases w.maximum - |out|
  {
    hide ModelOk, DecodeOperation, Keeps;
    if target == Some(|out|) then Ok(Ended(m, out))
    else
      var d :- DecodeOperation(m, out, r);
      OperationLength(m, out, r);
      if d.op.End? then Finish(d.m, out, d.next, target, requireEnd)
      else
        var out' :- Perform(d.op, out, w, target);
        Run(d.m, out', w, d.next, target, requireEnd)
  }

  lemma OperationLength(m: Model, out: seq<byte>, r: Registers)
    requires ModelOk(m) && r.range >= TOP && DecodeOperation(m, out, r).Ok?
    ensures var d := DecodeOperation(m, out, r).value;
            ReadOk(d) && d.next.range >= TOP && ModelOk(d.m) && (d.op.Match? ==> d.op.length >= 1)
  {
    hide DecodeOperation;
    OperationKeeps(m, out, r);
  }

  lemma OperationLengthIfOk(m: Model, out: seq<byte>, r: Registers)
    requires ModelOk(m) && r.range >= TOP
    ensures DecodeOperation(m, out, r).Ok? ==>
              var op := DecodeOperation(m, out, r).value.op; op.Match? ==> op.length >= 1
  {
    if DecodeOperation(m, out, r).Ok? {
      OperationLength(m, out, r);
    }
  }

  /** `decode_stream`, from the bytes of one range-coded stream. */
  function DecodeStream(m: Model, input: seq<byte>, out: seq<byte>, w: Limits, increment: Option<nat>, requireEnd: bool)
    : (x: Result<Ended>)
    requires ModelOk(m)
    ensures x.Ok? ==> ModelOk(x.value.m) && (increment.Some? ==> |x.value.out| == |out| + increment.value)
  {
    hide ModelOk;
    var target := if increment.Some? then Some(|out| + increment.value) else None;
    if target.Some? && target.value > w.maximum then Err(LimitExceeded)
    else
      var r :- Start(input);
      Run(m, out, w, r, target, requireEnd)
  }

  // ---- what a choice list means ----

  /** A choice the decoder accepts here: not the end marker, and within dictionary and history. */
  predicate Allowed(reps: seq<u32>, out: seq<byte>, w: Limits, c: Choice)
    requires |reps| == 4
  {
    && ChoiceOk(reps, c)
    && var op := Meaning(reps, c);
       !op.End? && (op.Match? ==> 1 <= op.distance <= Min(w.dictionary, |out| - w.start))
  }

  function Apply(op: Operation, out: seq<byte>): (r: seq<byte>)
    requires !op.End? && (op.Match? ==> 1 <= op.distance <= |out| && op.length >= 1)
    ensures |r| > |out|
  {
    match op
    case Literal(b) => out + [b]
    case Match(distance, length) => Copied(out, distance, length)
  }

  /** Every choice of the list is accepted where it stands. */
  predicate AllAllowed(reps: seq<u32>, out: seq<byte>, w: Limits, cs: seq<Choice>)
    requires |reps| == 4
    decreases |cs|
  {
    cs == [] ||
    (Allowed(reps, out, w, cs[0]) &&
     AllAllowed(NextReps(reps, cs[0]), Apply(Meaning(reps, cs[0]), out), w, cs[1..]))
  }

  /** The bytes a choice list stands for: literals and overlapping copies of earlier output. */
  function Expand(reps: seq<u32>, out: seq<byte>, w: Limits, cs: seq<Choice>): (r: seq<byte>)
    requires |reps| == 4 && AllAllowed(reps, out, w, cs)
    ensures |r| >= |out| + |cs|
    decreases |cs|
  {
    if cs == [] then out
    else Expand(NextReps(reps, cs[0]), Apply(Meaning(reps, cs[0]), out), w, cs[1..])
  }

  /** The decisions of a whole choice list, the model adapting as it goes. */
  function Code(m: Model, out: seq<byte>, w: Limits, cs: seq<Choice>): (e: OperationCode)
    requires ModelOk(m) && AllAllowed(m.reps, out, w, cs)
    ensures ModelOk(e.m)
    decreases |cs|
  {
    hide ModelOk, Encode, Allowed, Apply, Meaning;
    if cs == [] then OperationCode([], m)
    else
      FirstAllowed(m, out, w, cs);
      var head := Encode(m, out, cs[0]);
      var tail := Code(head.m, Apply(Meaning(m.reps, cs[0]), out), w, cs[1..]);
      OperationCode(head.ds + tail.ds, tail.m)
  }

  /** The encoder remembers the distances the choices mean. */
  lemma EncodeReps(m: Model, out: seq<byte>, c: Choice)
    requires ModelOk(m) && ChoiceOk(m.reps, c)
    ensures Encode(m, out, c).m.reps == NextReps(m.reps, c)
  {
    hide Flip, LzmaSymbols.LengthsOk, LzmaSymbols.DistancesOk, PositionState;
    hide LzmaSymbols.EncodeLiteral, LzmaSymbols.EncodeLength, LzmaSymbols.EncodeDistance;
    if c.Again? && c.which == 0 {
      assert ToFront(m.reps, 0) == m.reps;
    }
  }

  lemma FourReps(m: Model)
    requires ModelOk(m)
    ensures |m.reps| == 4
  {
  }

  lemma FirstAllowed(m: Model, out: seq<byte>, w: Limits, cs: seq<Choice>)
    requires ModelOk(m) && cs != [] && AllAllowed(m.reps, out, w, cs)
    ensures |m.reps| == 4 && ChoiceOk(m.reps, cs[0]) && Allowed(m.reps, out, w, cs[0])
    ensures var op := Meaning(m.reps, cs[0]);
            !op.End? && (op.Match? ==> 1 <= op.distance <= Min(w.dictionary, |out| - w.start) && op.length >= 1)
    ensures var e := Encode(m, out, cs[0]);
            |e.m.reps| == 4 && e.m.reps == NextReps(m.reps, cs[0])
            && AllAllowed(e.m.reps, Apply(Meaning(m.reps, cs[0]), out), w, cs[1..])
  {
    FourReps(m);
    hide ModelOk, Encode;
    EncodeReps(m, out, cs[0]);
  }

  /** Decoding the code of a choice list expands it, and continues where the code ends. */
  lemma {:induction false} RunInverts(m: Model, out: seq<byte>, w: Limits, r: Registers, target: Option<nat>,
                                      requireEnd: bool, cs: seq<Choice>)
    requires ModelOk(m) && r.range >= TOP && AllAllowed(m.reps, out, w, cs)
    requires Replay(r, Code(m, out, w, cs).ds).Some?
    requires |Expand(m.reps, out, w, cs)| <= if target.Some? then Min(target.value, w.maximum) else w.maximum
    ensures Run(m, out, w, r, target, requireEnd)
         == Run(Code(m, out, w, cs).m, Expand(m.reps, out, w, cs), w, Replay(r, Code(m, out, w, cs).ds).value,
                target, requireEnd)
    decreases |cs|
  {
    hide ModelOk, Encode, DecodeOperation, Replay, Allowed, Apply, Meaning, Keeps;
    if cs == [] {
      ReplayNothing(r);
    } else {
      FirstAllowed(m, out, w, cs);
      var head := Encode(m, out, cs[0]);
      var out' := Apply(Meaning(m.reps, cs[0]), out);
      var tail := Code(head.m, out', w, cs[1..]);
      ReplayAppend(r, head.ds, tail.ds);
      var n := Replay(r, head.ds).value;
      OperationInverts(m, out, cs[0], r);
      Performs(m.reps, out, w, cs[0], target);
      RunInverts(head.m, out', w, n, target, requireEnd, cs[1..]);
    }
  }

  lemma ReplayNothing(r: Registers)
    requires r.range >= TOP
    ensures Replay(r, []) == Some(r)
  {
  }

  lemma OperationInverts(m: Model, out: seq<byte>, c: Choice, r: Registers)
    requires ModelOk(m) && ChoiceOk(m.reps, c) && r.range >= TOP && Replay(r, Encode(m, out, c).ds).Some?
    ensures DecodeOperation(m, out, r)
         == Ok(OperationRead(Meaning(m.reps, c), Encode(m, out, c).m, Replay(r, Encode(m, out, c).ds).value))
  {
    hide ModelOk, Encode, DecodeOperation, Replay;
    OperationInverse(m, out, c, r);
  }

  lemma Performs(reps: seq<u32>, out: seq<byte>, w: Limits, c: Choice, target: Option<nat>)
    requires |reps| == 4 && Allowed(reps, out, w, c)
    requires var op := Meaning(reps, c); op.Match? ==> op.length >= 1
    requires var size := |Apply(Meaning(reps, c), out)|; size <= w.maximum && (target.Some? ==> size <= target.value)
    ensures Perform(Meaning(reps, c), out, w, target) == Ok(Apply(Meaning(reps, c), out))
  {
  }

  // ---- whole streams ----

  /** `input` starts with a number that presents the decisions. */
  ghost predicate Carries(input: seq<byte>, ds: seq<Decision>) {
    Start(input).Ok? && Replay(Start(input).value, ds).Some?
  }

  lemma RunStops(m: Model, out: seq<byte>, w: Limits, r: Registers, requireEnd: bool)
    requires ModelOk(m) && r.range >= TOP
    ensures Run(m, out, w, r, Some(|out|), requireEnd) == Ok(Ended(m, out))
  {
  }

  /** A stream of known size expands to its choices, whatever bytes follow them. */
  lemma StreamInverts(m: Model, input: seq<byte>, out: seq<byte>, w: Limits, cs: seq<Choice>, requireEnd: bool)
    requires ModelOk(m) && AllAllowed(m.reps, out, w, cs) && Carries(input, Code(m, out, w, cs).ds)
    requires |Expand(m.reps, out, w, cs)| <= w.maximum
    ensures var all := Expand(m.reps, out, w, cs);
            && |all| >= |out|
            && DecodeStream(m, input, out, w, Some(|all| - |out|), requireEnd) == Ok(Ended(Code(m, out, w, cs).m, all))
  {
    hide ModelOk, Replay, Start, AllAllowed, Expand, Code, Run, Allowed;
    FourReps(m);
    var all := Expand(m.reps, out, w, cs);
    var e := Code(m, out, w, cs);
    RunStops(e.m, all, w, Replay(Start(input).value, e.ds).value, requireEnd);
    RunInverts(m, out, w, Start(input).value, Some(|all|), requireEnd, cs);
  }

  /** The choices followed by the end marker, which may carry any length. */
  function CodeToEnd(m: Model, out: seq<byte>, w: Limits, cs: seq<Choice>, extra: nat): seq<Decision>
    requires ModelOk(m) && AllAllowed(m.reps, out, w, cs) && extra < 272
  {
    var e := Code(m, out, w, cs);
    EndAllowed(e.m, extra);
    e.ds + Encode(e.m, Expand(m.reps, out, w, cs), New(EOS, extra)).ds
  }

  lemma EndAllowed(m: Model, extra: nat)
    requires ModelOk(m) && extra < 272
    ensures |m.reps| == 4 && ChoiceOk(m.reps, New(EOS, extra)) && Meaning(m.reps, New(EOS, extra)) == End
  {
  }

  /** The stream an encoder closes with the end marker expands to its choices and is consumed to the last byte. */
  lemma EndedStreamInverts(m: Model, out: seq<byte>, w: Limits, cs: seq<Choice>, extra: nat)
    requires ModelOk(m) && AllAllowed(m.reps, out, w, cs) && extra < 272
    requires |Expand(m.reps, out, w, cs)| <= w.maximum
    ensures var x := DecodeStream(m, CodeBytes(CodeToEnd(m, out, w, cs, extra)), out, w, None, true);
            x.Ok? && x.value.out == Expand(m.reps, out, w, cs)
  {
    hide ModelOk, Replay, Start, Encode, DecodeOperation, CodeBytes, Keeps, AllAllowed, Expand, Code, Allowed, Meaning;
    FourReps(m);
    var e, all := Code(m, out, w, cs), Expand(m.reps, out, w, cs);
    var end := New(EOS, extra);
    EndAllowed(e.m, extra);
    var tail := Encode(e.m, all, end).ds;
    CodeBytesDecode(e.ds + tail);
    var input := CodeBytes(e.ds + tail);
    var r := Start(input).value;
    ReplayAppend(r, e.ds, tail);
    RunInverts(m, out, w, r, None, true, cs);
    OperationInverts(e.m, all, end, Replay(r, e.ds).value);
  }

  /** A declared size is never reached by the end marker: it is always an error there. */
  lemma EndBeforeTarget(m: Model, out: seq<byte>, w: Limits, r: Registers, target: nat, requireEnd: bool)
    requires ModelOk(m) && r.range >= TOP && |out| != target
    requires DecodeOperation(m, out, r).Ok? && DecodeOperation(m, out, r).value.op.End?
    ensures Run(m, out, w, r, Some(target), requireEnd).Err?
  {
    hide ModelOk, DecodeOperation, Keeps;
  }

  // ---- LZMA with its five property bytes ----

  datatype Properties = Properties(lc: nat, lp: nat, pb: nat)

  function PropertiesFromByte(b: byte): (p: Result<Properties>)
    ensures p.Ok? ==> p.value.lc + p.value.lp <= 4 && p.value.pb <= 4
  {
    if b > 224 then Err(Format)
    else
      var lc, lp, pb := b % 9, b / 9 % 5, b / 9 / 5;
      if pb > 4 || lc + lp > 4 then Err(Format) else Ok(Properties(lc, lp, pb))
  }

  function PropertyByte(p: Properties): byte
    requires p.lc + p.lp <= 4 && p.pb <= 4
  {
    (p.pb * 5 + p.lp) * 9 + p.lc
  }

  /** A property byte is accepted exactly when it is the byte of a legal triple. */
  lemma PropertiesInverse(b: byte, p: Properties)
    requires p.lc + p.lp <= 4 && p.pb <= 4
    ensures PropertiesFromByte(b) == Ok(p) <==> b == PropertyByte(p)
  {
    Digits(b, p.lc, p.lp, p.pb);
  }

  lemma Digits(b: nat, lc: nat, lp: nat, pb: nat)
    requires lc < 9 && lp < 5
    ensures b == (pb * 5 + lp) * 9 + lc <==> b % 9 == lc && b / 9 % 5 == lp && b / 9 / 5 == pb
  {
  }

  function DecodeLzma(input: seq<byte>, properties: seq<byte>, expected: Option<nat>, maximum: nat)
    : (x: Result<seq<byte>>)
    ensures x.Ok? && expected.Some? ==> |x.value| == expected.value
  {
    if |properties| != 5 then Err(Format)
    else
      var p :- PropertiesFromByte(properties[0]);
      if expected.Some? && expected.value > maximum then Err(LimitExceeded)
      else
        var w := LzmaLimits(properties[1..], maximum);
        var e :- DecodeStream(FreshModel(p.lc, p.lp, p.pb), input, [], w, expected, expected.None?);
        Ok(e.out)
  }

  const NO_REPS: seq<u32> := [0, 0, 0, 0]

  function LzmaLimits(dictionary: seq<byte>, maximum: nat): Limits {
    Limits(maximum, Max(LittleEndian(dictionary), 1), 0)
  }

  /** Legal property bytes select a fresh model and a dictionary. */
  lemma DecodeLzmaRuns(p: Properties, dictionary: seq<byte>, input: seq<byte>, expected: Option<nat>, maximum: nat)
    requires p.lc + p.lp <= 4 && p.pb <= 4 && |dictionary| == 4 && (expected.Some? ==> expected.value <= maximum)
    ensures var x := DecodeLzma(input, [PropertyByte(p)] + dictionary, expected, maximum);
            var e := DecodeStream(FreshModel(p.lc, p.lp, p.pb), input, [], LzmaLimits(dictionary, maximum),
                                  expected, expected.None?);
            x == if e.Ok? then Ok(e.value.out) else Err(e.error)
  {
    hide ModelOk, DecodeStream, PropertiesFromByte, PropertyByte, LittleEndian, FreshModel;
    var properties := [PropertyByte(p)] + dictionary;
    assert properties[1..] == dictionary;
    PropertiesInverse(PropertyByte(p), p);
  }

  lemma FreshStart(p: Properties, dictionary: seq<byte>, maximum: nat)
    requires p.lc + p.lp <= 4 && p.pb <= 4 && |dictionary| == 4
    ensures FreshModel(p.lc, p.lp, p.pb).reps == NO_REPS && LzmaLimits(dictionary, maximum).maximum == maximum
  {
  }

  /** The bytes of a list of choices decode to its expansion. */
  lemma CodeDecodes(m: Model, w: Limits, cs: seq<Choice>, trailing: seq<byte>)
    requires ModelOk(m) && AllAllowed(m.reps, [], w, cs) && |Expand(m.reps, [], w, cs)| <= w.maximum
    ensures var all := Expand(m.reps, [], w, cs);
            DecodeStream(m, CodeBytes(Code(m, [], w, cs).ds) + trailing, [], w, Some(|all|), false)
            == Ok(Ended(Code(m, [], w, cs).m, all))
  {
    hide ModelOk, CodeBytes, DecodeStream, Carries, AllAllowed, Expand, Code;
    CodeCarries(Code(m, [], w, cs).ds, trailing);
    StreamInverts(m, CodeBytes(Code(m, [], w, cs).ds) + trailing, [], w, cs, false);
  }

  /** Every list of choices round-trips through LZMA of declared size, whatever bytes follow it. */
  lemma LzmaInverts(p: Properties, dictionary: seq<byte>, cs: seq<Choice>, maximum: nat, trailing: seq<byte>)
    requires p.lc + p.lp <= 4 && p.pb <= 4 && |dictionary| == 4
    requires var w := LzmaLimits(dictionary, maximum);
             AllAllowed(NO_REPS, [], w, cs) && |Expand(NO_REPS, [], w, cs)| <= maximum
    ensures var w, m := LzmaLimits(dictionary, maximum), FreshModel(p.lc, p.lp, p.pb);
            var all := Expand(NO_REPS, [], w, cs);
            DecodeLzma(CodeBytes(Code(m, [], w, cs).ds) + trailing, [PropertyByte(p)] + dictionary, Some(|all|),
                       maximum)
            == Ok(all)
  {
    FreshStart(p, dictionary, maximum);
    hide ModelOk, CodeBytes, DecodeStream, DecodeLzma, AllAllowed, Expand, Code, FreshModel, LzmaLimits;
    var w, m := LzmaLimits(dictionary, maximum), FreshModel(p.lc, p.lp, p.pb);
    CodeDecodes(m, w, cs, trailing);
    var size := |Expand(NO_REPS, [], w, cs)|;
    DecodeLzmaRuns(p, dictionary, CodeBytes(Code(m, [], w, cs).ds) + trailing, Some(size), maximum);
  }

  /** So does every list of choices closed by the end marker, when no size is declared. */
  lemma EndedLzmaInverts(p: Properties, dictionary: seq<byte>, cs: seq<Choice>, maximum: nat, extra: nat)
    requires p.lc + p.lp <= 4 && p.pb <= 4 && |dictionary| == 4 && extra < 272
    requires var w := LzmaLimits(dictionary, maximum);
             AllAllowed(NO_REPS, [], w, cs) && |Expand(NO_REPS, [], w, cs)| <= maximum
    ensures var w, m := LzmaLimits(dictionary, maximum), FreshModel(p.lc, p.lp, p.pb);
            DecodeLzma(CodeBytes(CodeToEnd(m, [], w, cs, extra)), [PropertyByte(p)] + dictionary, None, maximum)
            == Ok(Expand(NO_REPS, [], w, cs))
  {
    FreshStart(p, dictionary, maximum);
    hide ModelOk, CodeBytes, DecodeStream, DecodeLzma, AllAllowed, Expand, CodeToEnd, FreshModel, LzmaLimits;
    var w, m := LzmaLimits(dictionary, maximum), FreshModel(p.lc, p.lp, p.pb);
    EndedStreamInverts(m, [], w, cs, extra);
    DecodeLzmaRuns(p, dictionary, CodeBytes(CodeToEnd(m, [], w, cs, extra)), None, maximum);
  }

  lemma CodeCarries(ds: seq<Decision>, trailing: seq<byte>)
    ensures Carries(CodeBytes(ds) + trailing, ds)
  {
    hide Replay, Start;
    CodePresented(ds);
    var i, input := Narrow(FULL_RANGE, ds), CodeBytes(ds);
    assert (input + trailing)[1..5 + i.shifts] == input[1..5 + i.shifts];
    NumberInverts(input + trailing, ds);
  }
}
