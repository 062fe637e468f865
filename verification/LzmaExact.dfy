/** What the LZMA decoder accepts is what an encoder may write, in one way: the converse of its round trips. */
module LzmaExact {
  import opened Prelude
  import opened LzmaRange
  import opened LzmaIntervals
  import opened LzmaOperations
  import opened LzmaChoices
  import opened LzmaStream
  import LzmaSymbols

  // ---- runs ----

  /** The decisions of the choices replay from here. */
  ghost predicate Chosen(m: Model, out: seq<byte>, w: Limits, r: Registers, cs: seq<Choice>)
    requires ModelOk(m) && r.range >= TOP
  {
    |m.reps| == 4 && AllAllowed(m.reps, out, w, cs) && Replay(r, Code(m, out, w, cs).ds).Some?
  }

  /** So do those of the end marker behind them, which use up the input and the code. */
  ghost predicate Closed(m: Model, out: seq<byte>, w: Limits, r: Registers, cs: seq<Choice>, extra: nat)
    requires ModelOk(m) && r.range >= TOP
  {
    && extra < 272 && |m.reps| == 4 && AllAllowed(m.reps, out, w, cs)
    && var end := Replay(r, CodeToEnd(m, out, w, cs, extra));
       end.Some? && end.value.code == 0 && end.value.rest == []
  }

  lemma ChosenNone(m: Model, out: seq<byte>, w: Limits, r: Registers)
    requires ModelOk(m) && r.range >= TOP
    ensures Chosen(m, out, w, r, []) && Code(m, out, w, []) == OperationCode([], m) && Expand(m.reps, out, w, []) == out
  {
    FourReps(m);
    LzmaSymbols.ReplayNone(r);
  }

  /** The meaning and the code of a list with one more choice in front. */
  lemma ListFirst(m: Model, out: seq<byte>, w: Limits, c: Choice, cs: seq<Choice>)
    requires ModelOk(m) && |m.reps| == 4 && Allowed(m.reps, out, w, c)
    requires var op := Meaning(m.reps, c); op.Match? ==> op.length >= 1
    ensures Encode(m, out, c).m.reps == NextReps(m.reps, c)
    ensures var m', out' := Encode(m, out, c).m, Apply(Meaning(m.reps, c), out);
            && (AllAllowed(m.reps, out, w, [c] + cs) <==> AllAllowed(m'.reps, out', w, cs))
            && (AllAllowed(m'.reps, out', w, cs) ==>
                  && Expand(m.reps, out, w, [c] + cs) == Expand(m'.reps, out', w, cs)
                  && Code(m, out, w, [c] + cs)
                     == OperationCode(Encode(m, out, c).ds + Code(m', out', w, cs).ds, Code(m', out', w, cs).m))
  {
    hide ModelOk, Encode, Apply, Meaning;
    EncodeReps(m, out, c);
    assert ([c] + cs)[0] == c && ([c] + cs)[1..] == cs;
  }

  /** A choice in front of a list that goes on from where it leads. */
  lemma ChosenFirst(m: Model, out: seq<byte>, w: Limits, r: Registers, c: Choice, cs: seq<Choice>)
    requires ModelOk(m) && r.range >= TOP && |m.reps| == 4 && Allowed(m.reps, out, w, c)
    requires var op := Meaning(m.reps, c); op.Match? ==> op.length >= 1
    requires Replay(r, Encode(m, out, c).ds).Some?
    ensures var m', out' := Encode(m, out, c).m, Apply(Meaning(m.reps, c), out);
            var n := Replay(r, Encode(m, out, c).ds).value;
            && (Chosen(m, out, w, r, [c] + cs) <==> Chosen(m', out', w, n, cs))
            && (Chosen(m', out', w, n, cs) ==>
                  && Expand(m.reps, out, w, [c] + cs) == Expand(m'.reps, out', w, cs)
                  && Code(m, out, w, [c] + cs).m == Code(m', out', w, cs).m)
  {
    ListFirst(m, out, w, c, cs);
    var m', out' := Encode(m, out, c).m, Apply(Meaning(m.reps, c), out);
    FourReps(m');
    hide ModelOk, Encode, Replay, Allowed, Apply, Meaning, AllAllowed, Expand, Code;
    if AllAllowed(m'.reps, out', w, cs) {
      ReplayAppend(r, Encode(m, out, c).ds, Code(m', out', w, cs).ds);
    }
  }

  /** The end marker closes the empty list; a choice goes in front of a closed one. */
  lemma ClosedNone(m: Model, out: seq<byte>, w: Limits, r: Registers, extra: nat)
    requires ModelOk(m) && r.range >= TOP && extra < 272
    ensures |m.reps| == 4 && ChoiceOk(m.reps, New(EOS, extra))
    ensures CodeToEnd(m, out, w, [], extra) == Encode(m, out, New(EOS, extra)).ds
  {
    hide ModelOk, Encode, Replay;
    ChosenNone(m, out, w, r);
    EndAllowed(m, extra);
  }

  lemma ClosedFirst(m: Model, out: seq<byte>, w: Limits, r: Registers, c: Choice, cs: seq<Choice>, extra: nat)
    requires ModelOk(m) && r.range >= TOP && |m.reps| == 4 && Allowed(m.reps, out, w, c)
    requires var op := Meaning(m.reps, c); op.Match? ==> op.length >= 1
    requires Replay(r, Encode(m, out, c).ds).Some?
    ensures var m', out' := Encode(m, out, c).m, Apply(Meaning(m.reps, c), out);
            var n := Replay(r, Encode(m, out, c).ds).value;
            && (Closed(m, out, w, r, [c] + cs, extra) <==> Closed(m', out', w, n, cs, extra))
            && (Closed(m', out', w, n, cs, extra) ==>
                  Expand(m.reps, out, w, [c] + cs) == Expand(m'.reps, out', w, cs))
  {
    ListFirst(m, out, w, c, cs);
    var m', out', n := Encode(m, out, c).m, Apply(Meaning(m.reps, c), out), Replay(r, Encode(m, out, c).ds).value;
    FourReps(m');
    hide ModelOk, Encode, Replay, Allowed, Apply, Meaning, AllAllowed, Expand, Code;
    if extra < 272 && AllAllowed(m'.reps, out', w, cs) {
      EndFirst(m, out, w, c, cs, extra);
      ReplayAppend(r, Encode(m, out, c).ds, CodeToEnd(m', out', w, cs, extra));
    }
  }

  lemma EndFirst(m: Model, out: seq<byte>, w: Limits, c: Choice, cs: seq<Choice>, extra: nat)
    requires ModelOk(m) && |m.reps| == 4 && Allowed(m.reps, out, w, c) && extra < 272
    requires var op := Meaning(m.reps, c); op.Match? ==> op.length >= 1
    requires AllAllowed(Encode(m, out, c).m.reps, Apply(Meaning(m.reps, c), out), w, cs)
    ensures AllAllowed(m.reps, out, w, [c] + cs)
    ensures CodeToEnd(m, out, w, [c] + cs, extra)
         == Encode(m, out, c).ds + CodeToEnd(Encode(m, out, c).m, Apply(Meaning(m.reps, c), out), w, cs, extra)
  {
    hide ModelOk, Encode, Apply, Meaning, AllAllowed, Expand, Code;
    ListFirst(m, out, w, c, cs);
  }

  /** What a successful turn of the loop did. */
  lemma TurnExact(m: Model, out: seq<byte>, w: Limits, r: Registers, target: Option<nat>) returns (c: Choice)
    requires ModelOk(m) && r.range >= TOP && DecodeOperation(m, out, r).Ok?
    requires var op := DecodeOperation(m, out, r).value.op;
             !op.End? && (op.Match? ==> op.length >= 1) && Perform(op, out, w, target).Ok?
    ensures |m.reps| == 4 && Allowed(m.reps, out, w, c) && Replay(r, Encode(m, out, c).ds).Some?
    ensures var d := DecodeOperation(m, out, r).value;
            && d == OperationRead(Meaning(m.reps, c), Encode(m, out, c).m, Replay(r, Encode(m, out, c).ds).value)
            && (d.op.Match? ==> 1 <= d.op.distance <= |out| && d.op.length >= 1)
            && Perform(d.op, out, w, target).value == Apply(d.op, out)
  {
    hide ModelOk, Encode, Replay, DecodeOperation;
    FourReps(m);
    c := OperationExact(m, out, r);
  }

  /** A run that reaches the declared size decoded the decisions of some choices that expand to its output. */
  lemma {:induction false} SizedRun(m: Model, out: seq<byte>, w: Limits, r: Registers, target: nat, requireEnd: bool)
    returns (cs: seq<Choice>)
    requires ModelOk(m) && r.range >= TOP && Run(m, out, w, r, Some(target), requireEnd).Ok?
    ensures Chosen(m, out, w, r, cs)
    ensures Run(m, out, w, r, Some(target), requireEnd).value
         == Ended(Code(m, out, w, cs).m, Expand(m.reps, out, w, cs))
    decreases w.maximum - |out|
  {
    hide ModelOk, Encode, Replay, DecodeOperation, Allowed, Apply, Meaning, Keeps, Chosen, Perform;
    cs := [];
    ChosenNone(m, out, w, r);
    if target != |out| {
      OperationLength(m, out, r);
      var c := TurnExact(m, out, w, r, Some(target));
      var d := DecodeOperation(m, out, r).value;
      var tail := SizedRun(d.m, Apply(d.op, out), w, d.next, target, requireEnd);
      ChosenFirst(m, out, w, r, c, tail);
      cs := [c] + tail;
    }
  }

  /** Without a declared size the end marker follows the choices, and it uses up the code and the input. */
  lemma {:induction false} EndedRun(m: Model, out: seq<byte>, w: Limits, r: Registers, requireEnd: bool)
    returns (cs: seq<Choice>, extra: nat)
    requires ModelOk(m) && r.range >= TOP && Run(m, out, w, r, None, requireEnd).Ok?
    ensures requireEnd && Closed(m, out, w, r, cs, extra)
    ensures Run(m, out, w, r, None, requireEnd).value.out == Expand(m.reps, out, w, cs)
    ensures |Expand(m.reps, out, w, cs)| <= Max(|out|, w.maximum)
    decreases w.maximum - |out|
  {
    hide ModelOk, Encode, Replay, DecodeOperation, Allowed, Apply, Keeps, Closed, Perform;
    OperationLength(m, out, r);
    if DecodeOperation(m, out, r).value.op.End? {
      var c := OperationExact(m, out, r);
      cs, extra := [], c.extra;
      FourReps(m);
      EndOnly(m.reps, c);
      ClosedNow(m, out, w, r, extra);
    } else {
      var c := TurnExact(m, out, w, r, None);
      var d := DecodeOperation(m, out, r).value;
      cs, extra := EndedRun(d.m, Apply(d.op, out), w, d.next, requireEnd);
      ClosedFirst(m, out, w, r, c, cs, extra);
      cs := [c] + cs;
    }
  }

  lemma EndOnly(reps: seq<u32>, c: Choice)
    requires |reps| == 4 && ChoiceOk(reps, c) && Meaning(reps, c).End?
    ensures c.New? && c.offset == EOS && c.extra < 272
  {
  }

  lemma ClosedNow(m: Model, out: seq<byte>, w: Limits, r: Registers, extra: nat)
    requires ModelOk(m) && r.range >= TOP && extra < 272 && |m.reps| == 4 && ChoiceOk(m.reps, New(EOS, extra))
    requires var end := Replay(r, Encode(m, out, New(EOS, extra)).ds);
             end.Some? && end.value.code == 0 && end.value.rest == []
    ensures Closed(m, out, w, r, [], extra) && Expand(m.reps, out, w, []) == out
  {
    hide ModelOk, Encode, Replay, CodeToEnd;
    ClosedNone(m, out, w, r, extra);
    ChosenNone(m, out, w, r);
  }

  // ---- no other list ----

  /** The first choice of a list whose decisions replay. */
  lemma ListHead(m: Model, out: seq<byte>, w: Limits, r: Registers, cs: seq<Choice>, tail: seq<Decision>)
    requires ModelOk(m) && r.range >= TOP && |m.reps| == 4 && cs != [] && AllAllowed(m.reps, out, w, cs)
    requires Replay(r, Code(m, out, w, cs).ds + tail).Some?
    ensures Allowed(m.reps, out, w, cs[0]) && ChoiceOk(m.reps, cs[0]) && Replay(r, Encode(m, out, cs[0]).ds).Some?
    ensures var op := Meaning(m.reps, cs[0]); !op.End? && (op.Match? ==> 1 <= op.distance <= |out| && op.length >= 1)
    ensures cs == [cs[0]] + cs[1..]
  {
    FirstAllowed(m, out, w, cs);
    ListFirst(m, out, w, cs[0], cs[1..]);
    hide ModelOk, Encode, Replay, Apply, Meaning, AllAllowed, Expand;
    var head := Encode(m, out, cs[0]);
    assert cs == [cs[0]] + cs[1..];
    ReplayAppend(r, Code(m, out, w, cs).ds, tail);
    ReplayAppend(r, head.ds, Code(head.m, Apply(Meaning(m.reps, cs[0]), out), w, cs[1..]).ds);
  }

  /** Choices of the same total length that replay from the same registers are the same. */
  lemma {:induction false} ChosenUnique(m: Model, out: seq<byte>, w: Limits, r: Registers,
                                        cs: seq<Choice>, cs': seq<Choice>)
    requires ModelOk(m) && r.range >= TOP && Chosen(m, out, w, r, cs) && Chosen(m, out, w, r, cs')
    requires |Expand(m.reps, out, w, cs)| == |Expand(m.reps, out, w, cs')|
    ensures cs == cs'
    decreases |cs|
  {
    hide ModelOk, Encode, Replay, Apply, Meaning, AllAllowed, Code, Allowed;
    if cs == [] || cs' == [] {
      ChosenNone(m, out, w, r);
    } else {
      assert Code(m, out, w, cs).ds + [] == Code(m, out, w, cs).ds;
      assert Code(m, out, w, cs').ds + [] == Code(m, out, w, cs').ds;
      ListHead(m, out, w, r, cs, []);
      ListHead(m, out, w, r, cs', []);
      OperationUnique(m, out, cs[0], cs'[0], r);
      ChosenFirst(m, out, w, r, cs[0], cs[1..]);
      ChosenFirst(m, out, w, r, cs[0], cs'[1..]);
      ChosenUnique(Encode(m, out, cs[0]).m, Apply(Meaning(m.reps, cs[0]), out), w,
                   Replay(r, Encode(m, out, cs[0]).ds).value, cs[1..], cs'[1..]);
    }
  }

  /** Lists closed by the end marker that replay from the same registers are the same. */
  lemma {:induction false} ClosedUnique(m: Model, out: seq<byte>, w: Limits, r: Registers, cs: seq<Choice>, extra: nat,
                                        cs': seq<Choice>, extra': nat)
    requires ModelOk(m) && r.range >= TOP && Closed(m, out, w, r, cs, extra) && Closed(m, out, w, r, cs', extra')
    ensures cs == cs' && extra == extra'
    decreases |cs|
  {
    hide ModelOk, Encode, Replay, Apply, Meaning, AllAllowed, Code, Allowed, Closed;
    var c := ClosedHead(m, out, w, r, cs, extra);
    var c' := ClosedHead(m, out, w, r, cs', extra');
    OperationUnique(m, out, c, c', r);
    if cs != [] && cs' != [] {
      ClosedFirst(m, out, w, r, c, cs[1..], extra);
      ClosedFirst(m, out, w, r, c, cs'[1..], extra');
      ClosedUnique(Encode(m, out, c).m, Apply(Meaning(m.reps, c), out), w,
                   Replay(r, Encode(m, out, c).ds).value, cs[1..], extra, cs'[1..], extra');
    }
  }

  /** The first thing such a list says: its first choice, or the end marker. */
  lemma ClosedHead(m: Model, out: seq<byte>, w: Limits, r: Registers, cs: seq<Choice>, extra: nat)
    returns (c: Choice)
    requires ModelOk(m) && r.range >= TOP && Closed(m, out, w, r, cs, extra)
    ensures |m.reps| == 4 && ChoiceOk(m.reps, c) && Replay(r, Encode(m, out, c).ds).Some?
    ensures cs == [] <==> Meaning(m.reps, c).End?
    ensures cs == [] ==> c == New(EOS, extra)
    ensures cs != [] ==> cs == [c] + cs[1..] && Allowed(m.reps, out, w, c)
    ensures var op := Meaning(m.reps, c); op.Match? ==> 1 <= op.distance <= |out| && op.length >= 1
  {
    hide ModelOk, Encode, Replay, Apply, AllAllowed, Code, Allowed;
    if cs == [] {
      ClosedNone(m, out, w, r, extra);
      EndAllowed(m, extra);
      c := New(EOS, extra);
    } else {
      c := cs[0];
      ListHead(m, out, w, r, cs, CodeToEnd(m, out, w, cs, extra)[|Code(m, out, w, cs).ds|..]);
    }
  }

  // ---- whole streams ----

  /** The stream carries choices that lead from `out` to `e`. */
  ghost predicate CarriedTo(m: Model, input: seq<byte>, out: seq<byte>, w: Limits, cs: seq<Choice>, e: Ended)
    requires ModelOk(m)
  {
    && Start(input).Ok? && Chosen(m, out, w, Start(input).value, cs)
    && e == Ended(Code(m, out, w, cs).m, Expand(m.reps, out, w, cs))
  }

  /** A range-coded stream produces `n` bytes if and only if it carries choices that do. */
  lemma StreamExact(m: Model, input: seq<byte>, out: seq<byte>, w: Limits, n: nat, requireEnd: bool, e: Ended)
    requires ModelOk(m)
    ensures DecodeStream(m, input, out, w, Some(n), requireEnd) == Ok(e) <==>
              |e.out| == |out| + n && |e.out| <= w.maximum && exists cs :: CarriedTo(m, input, out, w, cs, e)
  {
    hide Start, Run, AllAllowed, Expand, Code, ModelOk, Replay;
    var x := DecodeStream(m, input, out, w, Some(n), requireEnd);
    if x == Ok(e) {
      var cs := SizedRun(m, out, w, Start(input).value, |out| + n, requireEnd);
      assert CarriedTo(m, input, out, w, cs, e);
    }
    if |e.out| == |out| + n && |e.out| <= w.maximum {
      if cs :| CarriedTo(m, input, out, w, cs, e) {
        StreamInverts(m, input, out, w, cs, requireEnd);
      }
    }
  }

  /** A stream that closes its choices with the end marker short of the declared size is refused, whatever follows. */
  lemma EndBeforeSize(m: Model, input: seq<byte>, out: seq<byte>, w: Limits, n: nat, requireEnd: bool,
                      cs: seq<Choice>, extra: nat)
    requires ModelOk(m) && |m.reps| == 4 && AllAllowed(m.reps, out, w, cs) && extra < 272
    requires Carries(input, CodeToEnd(m, out, w, cs, extra)) && |Expand(m.reps, out, w, cs)| < |out| + n
    ensures DecodeStream(m, input, out, w, Some(n), requireEnd).Err?
  {
    hide ModelOk, Replay, Start, Encode, DecodeOperation, Keeps, AllAllowed, Expand, Code, Allowed, Meaning, Run;
    var e, all := Code(m, out, w, cs), Expand(m.reps, out, w, cs);
    if |out| + n <= w.maximum {
      var r := Start(input).value;
      EndAllowed(e.m, extra);
      ReplayAppend(r, e.ds, Encode(e.m, all, New(EOS, extra)).ds);
      RunInverts(m, out, w, r, Some(|out| + n), requireEnd, cs);
      var r' := Replay(r, e.ds).value;
      OperationInverts(e.m, all, New(EOS, extra), r');
      EndBeforeTarget(e.m, all, w, r', |out| + n, requireEnd);
    }
  }

  predicate PropertiesOk(p: Properties, dictionary: seq<byte>) {
    p.lc + p.lp <= 4 && p.pb <= 4 && |dictionary| == 4
  }

  /** The stream carries choices that expand to `out`; anything may follow them. */
  ghost predicate SizedBy(input: seq<byte>, p: Properties, dictionary: seq<byte>, maximum: nat, cs: seq<Choice>,
                          out: seq<byte>)
    requires PropertiesOk(p, dictionary)
  {
    var w, m := LzmaLimits(dictionary, maximum), FreshModel(p.lc, p.lp, p.pb);
    && Start(input).Ok? && Chosen(m, [], w, Start(input).value, cs)
    && Expand(m.reps, [], w, cs) == out && |out| <= maximum
  }

  /** The stream is choices that expand to `out` and an end marker that uses it up. */
  ghost predicate EndedBy(input: seq<byte>, p: Properties, dictionary: seq<byte>, maximum: nat, cs: seq<Choice>,
                          extra: nat, out: seq<byte>)
    requires PropertiesOk(p, dictionary)
  {
    var w, m := LzmaLimits(dictionary, maximum), FreshModel(p.lc, p.lp, p.pb);
    && Start(input).Ok? && Closed(m, [], w, Start(input).value, cs, extra)
    && Expand(m.reps, [], w, cs) == out && |out| <= maximum
  }

  /** A stream of declared size decodes to `out` if and only if it carries choices that expand to `out`. */
  lemma SizedExact(input: seq<byte>, p: Properties, dictionary: seq<byte>, size: nat, maximum: nat, out: seq<byte>)
    requires PropertiesOk(p, dictionary)
    ensures DecodeLzma(input, [PropertyByte(p)] + dictionary, Some(size), maximum) == Ok(out) <==>
              |out| == size && exists cs :: SizedBy(input, p, dictionary, maximum, cs, out)
  {
    FreshStart(p, dictionary, maximum);
    var w, m := LzmaLimits(dictionary, maximum), FreshModel(p.lc, p.lp, p.pb);
    hide PropertyByte, FreshModel, LzmaLimits, Start, AllAllowed, Expand, Code, ModelOk, DecodeStream, DecodeLzma;
    hide Chosen;
    if size > maximum {
      TooLarge(input, p, dictionary, size, maximum);
    } else {
      DecodeLzmaRuns(p, dictionary, input, Some(size), maximum);
      var x := DecodeStream(m, input, [], w, Some(size), false);
      if x.Ok? {
        StreamExact(m, input, [], w, size, false, x.value);
        var cs :| CarriedTo(m, input, [], w, cs, x.value);
        assert SizedBy(input, p, dictionary, maximum, cs, x.value.out);
      }
      if cs :| |out| == size && SizedBy(input, p, dictionary, maximum, cs, out) {
        StreamExact(m, input, [], w, size, false, Ended(Code(m, [], w, cs).m, out));
        assert CarriedTo(m, input, [], w, cs, Ended(Code(m, [], w, cs).m, out));
      }
    }
  }

  lemma TooLarge(input: seq<byte>, p: Properties, dictionary: seq<byte>, size: nat, maximum: nat)
    requires PropertiesOk(p, dictionary) && size > maximum
    ensures DecodeLzma(input, [PropertyByte(p)] + dictionary, Some(size), maximum).Err?
  {
    PropertiesInverse(PropertyByte(p), p);
  }

  /** And then only those choices, and only that output for its size. */
  lemma SizedUnique(input: seq<byte>, p: Properties, dictionary: seq<byte>, maximum: nat,
                    cs: seq<Choice>, out: seq<byte>, cs': seq<Choice>, out': seq<byte>)
    requires PropertiesOk(p, dictionary) && |out| == |out'|
    requires SizedBy(input, p, dictionary, maximum, cs, out) && SizedBy(input, p, dictionary, maximum, cs', out')
    ensures cs == cs' && out == out'
  {
    hide FreshModel, LzmaLimits, Start, Chosen, ModelOk;
    ChosenUnique(FreshModel(p.lc, p.lp, p.pb), [], LzmaLimits(dictionary, maximum), Start(input).value, cs, cs');
  }

  /** The stream is choices that lead from `out` to `all` and an end marker that uses it up. */
  ghost predicate ClosedTo(m: Model, input: seq<byte>, out: seq<byte>, w: Limits, cs: seq<Choice>, extra: nat,
                           all: seq<byte>)
    requires ModelOk(m)
  {
    Start(input).Ok? && Closed(m, out, w, Start(input).value, cs, extra) && Expand(m.reps, out, w, cs) == all
  }

  lemma ClosedExact(m: Model, input: seq<byte>, out: seq<byte>, w: Limits, all: seq<byte>)
    requires ModelOk(m) && |out| <= w.maximum
    ensures (var x := DecodeStream(m, input, out, w, None, true); x.Ok? && x.value.out == all) <==>
              |all| <= w.maximum && exists cs, extra :: ClosedTo(m, input, out, w, cs, extra, all)
  {
    hide Start, Run, AllAllowed, Expand, Code, ModelOk, Closed;
    var x := DecodeStream(m, input, out, w, None, true);
    if x.Ok? && x.value.out == all {
      var cs, extra := EndedRun(m, out, w, Start(input).value, true);
      assert ClosedTo(m, input, out, w, cs, extra, all);
    }
    if |all| <= w.maximum {
      if cs, extra :| ClosedTo(m, input, out, w, cs, extra, all) {
        ClosedRuns(m, out, w, Start(input).value, cs, extra);
      }
    }
  }

  /** A stream without a declared size decodes to `out` if and only if it is choices that expand to `out` and an
      end marker after which neither input nor code is left. */
  lemma EndedExact(input: seq<byte>, p: Properties, dictionary: seq<byte>, maximum: nat, out: seq<byte>)
    requires PropertiesOk(p, dictionary)
    ensures DecodeLzma(input, [PropertyByte(p)] + dictionary, None, maximum) == Ok(out) <==>
              exists cs, extra :: EndedBy(input, p, dictionary, maximum, cs, extra, out)
  {
    FreshStart(p, dictionary, maximum);
    hide PropertyByte, FreshModel, LzmaLimits, Start, AllAllowed, Expand, ModelOk, DecodeLzma, DecodeStream, Closed;
    var w, m := LzmaLimits(dictionary, maximum), FreshModel(p.lc, p.lp, p.pb);
    DecodeLzmaRuns(p, dictionary, input, None, maximum);
    ClosedExact(m, input, [], w, out);
    if DecodeLzma(input, [PropertyByte(p)] + dictionary, None, maximum) == Ok(out) {
      var cs, extra :| ClosedTo(m, input, [], w, cs, extra, out);
      assert EndedBy(input, p, dictionary, maximum, cs, extra, out);
    }
    if cs, extra :| EndedBy(input, p, dictionary, maximum, cs, extra, out) {
      assert ClosedTo(m, input, [], w, cs, extra, out);
    }
  }

  /** A closed list runs to its end. */
  lemma ClosedRuns(m: Model, out: seq<byte>, w: Limits, r: Registers, cs: seq<Choice>, extra: nat)
    requires ModelOk(m) && r.range >= TOP && Closed(m, out, w, r, cs, extra)
    requires |Expand(m.reps, out, w, cs)| <= w.maximum
    ensures var x := Run(m, out, w, r, None, true); x.Ok? && x.value.out == Expand(m.reps, out, w, cs)
  {
    hide ModelOk, Replay, Encode, DecodeOperation, Keeps, AllAllowed, Expand, Code, Allowed, Meaning;
    var e, all := Code(m, out, w, cs), Expand(m.reps, out, w, cs);
    EndAllowed(e.m, extra);
    ReplayAppend(r, e.ds, Encode(e.m, all, New(EOS, extra)).ds);
    RunInverts(m, out, w, r, None, true, cs);
    OperationInverts(e.m, all, New(EOS, extra), Replay(r, e.ds).value);
  }

  /** Only those choices, that end marker and that output. */
  lemma EndedUnique(input: seq<byte>, p: Properties, dictionary: seq<byte>, maximum: nat, cs: seq<Choice>, extra: nat,
                    out: seq<byte>, cs': seq<Choice>, extra': nat, out': seq<byte>)
    requires PropertiesOk(p, dictionary)
    requires EndedBy(input, p, dictionary, maximum, cs, extra, out)
    requires EndedBy(input, p, dictionary, maximum, cs', extra', out')
    ensures cs == cs' && extra == extra' && out == out'
  {
    hide FreshModel, LzmaLimits, Start, Closed, ModelOk;
    ClosedUnique(FreshModel(p.lc, p.lp, p.pb), [], LzmaLimits(dictionary, maximum), Start(input).value,
                 cs, extra, cs', extra');
  }

  /** Such a stream is byte for byte the one an arithmetic coder writes for its choices, if and only if no direct bit
      dropped the odd unit it stood on. */
  lemma EndedCanonical(input: seq<byte>, p: Properties, dictionary: seq<byte>, maximum: nat, cs: seq<Choice>,
                       extra: nat, out: seq<byte>)
    requires PropertiesOk(p, dictionary) && EndedBy(input, p, dictionary, maximum, cs, extra, out)
    ensures var w, m := LzmaLimits(dictionary, maximum), FreshModel(p.lc, p.lp, p.pb);
            && AllAllowed(m.reps, [], w, cs)
            && (input == CodeBytes(CodeToEnd(m, [], w, cs, extra)) <==>
                  Inside(Start(input).value, CodeToEnd(m, [], w, cs, extra)))
  {
    hide FreshModel, LzmaLimits, Start, CodeToEnd, ModelOk, Inside, Replay, CodeBytes, AllAllowed, Expand;
    CodeUnique(input, CodeToEnd(FreshModel(p.lc, p.lp, p.pb), [], LzmaLimits(dictionary, maximum), cs, extra));
  }

  /** Accepted properties are five bytes whose first encodes a legal triple. */
  lemma PropertiesExact(input: seq<byte>, properties: seq<byte>, expected: Option<nat>, maximum: nat)
    requires DecodeLzma(input, properties, expected, maximum).Ok?
    ensures exists p :: PropertiesOk(p, properties[1..]) && properties == [PropertyByte(p)] + properties[1..]
  {
    hide DecodeStream, FreshModel, ModelOk, PropertyByte, PropertiesFromByte, LzmaLimits;
    var p := PropertiesFromByte(properties[0]).value;
    PropertiesInverse(properties[0], p);
    assert properties == [PropertyByte(p)] + properties[1..];
  }
}
