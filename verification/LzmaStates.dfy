/** What the number in the LZMA state means: the kinds of the last few operations. */
module LzmaStates {
  import opened Prelude
  import opened LzmaRange
  import opened LzmaOperations
  import opened LzmaStream
  import opened LzmaExact
  import LzmaSymbols

  /** The four kinds of operation the decoder tells apart. */
  datatype Kind = Byte | NewDistance | OldDistance | OneByte

  function KindOf(c: Choice): Kind {
    match c
    case Lit(_) => Byte
    case New(_, _) => NewDistance
    case Again(_, _) => OldDistance
    case Short => OneByte
  }

  function Kinds(cs: seq<Choice>): (ks: seq<Kind>)
    ensures |ks| == |cs|
  {
    seq(|cs|, k requires 0 <= k < |cs| => KindOf(cs[k]))
  }

  /** The kind `back` operations ago; before the first one everything was a literal. */
  function Ago(ks: seq<Kind>, back: nat): Kind
    requires back >= 1
  {
    if back <= |ks| then ks[|ks| - back] else Byte
  }

  /** Whether the operation `back` ago was a copy of kind `k`, and what was before it. */
  predicate WasCopy(ks: seq<Kind>, back: nat, k: Kind, afterByte: bool)
    requires back >= 1
  {
    Ago(ks, back) == k && (Ago(ks, back + 1) == Byte) == afterByte
  }

  /** A long repetition, or a repetition of one byte that did not follow a literal. */
  predicate WasRepetition(ks: seq<Kind>, back: nat)
    requires back >= 1
  {
    Ago(ks, back) == OldDistance || WasCopy(ks, back, OneByte, false)
  }

  /** The twelve states. 0: three literals, or nothing yet. 1 to 3: two literals after a new match, a repetition, a
      one-byte repetition behind a literal. 4 to 6: one literal after these. 7 to 9: a new match, a long repetition, a
      one-byte repetition, behind a literal. 10 and 11: a new match, or any repetition, behind a copy. */
  predicate Means(state: nat, ks: seq<Kind>) {
    match state
    case 0 => Ago(ks, 1) == Byte && Ago(ks, 2) == Byte && Ago(ks, 3) == Byte
    case 1 => Ago(ks, 1) == Byte && Ago(ks, 2) == Byte && Ago(ks, 3) == NewDistance
    case 2 => Ago(ks, 1) == Byte && Ago(ks, 2) == Byte && WasRepetition(ks, 3)
    case 3 => Ago(ks, 1) == Byte && Ago(ks, 2) == Byte && WasCopy(ks, 3, OneByte, true)
    case 4 => Ago(ks, 1) == Byte && Ago(ks, 2) == NewDistance
    case 5 => Ago(ks, 1) == Byte && WasRepetition(ks, 2)
    case 6 => Ago(ks, 1) == Byte && WasCopy(ks, 2, OneByte, true)
    case 7 => WasCopy(ks, 1, NewDistance, true)
    case 8 => WasCopy(ks, 1, OldDistance, true)
    case 9 => WasCopy(ks, 1, OneByte, true)
    case 10 => WasCopy(ks, 1, NewDistance, false)
    case 11 => Ago(ks, 1) != NewDistance && Ago(ks, 1) != Byte && Ago(ks, 2) != Byte
    case _ => false
  }

  /** Every history has exactly one state. */
  lemma OneMeaning(ks: seq<Kind>, s: nat, s': nat)
    requires Means(s, ks) && Means(s', ks)
    ensures s == s'
  {
  }

  lemma AgoNext(ks: seq<Kind>, k: Kind, back: nat)
    requires back >= 1
    ensures Ago(ks + [k], 1) == k && Ago(ks + [k], back + 1) == Ago(ks, back)
  {
  }

  function AfterKind(state: nat, k: Kind): nat
    requires state < STATES
  {
    match k
    case Byte => AfterLiteral(state)
    case NewDistance => AfterMatch(state)
    case OldDistance => AfterRepetition(state)
    case OneByte => AfterShort(state)
  }

  /** One operation moves the state as it moves the history. */
  lemma KindMeans(state: nat, ks: seq<Kind>, k: Kind)
    requires state < STATES && Means(state, ks)
    ensures Means(AfterKind(state, k), ks + [k])
  {
    AgoNext(ks, k, 1);
    AgoNext(ks, k, 2);
    AgoNext(ks, k, 3);
    hide Ago;
  }

  lemma NextMeans(m: Model, out: seq<byte>, c: Choice, ks: seq<Kind>)
    requires ModelOk(m) && ChoiceOk(m.reps, c) && Means(m.state, ks)
    ensures Means(Encode(m, out, c).m.state, ks + [KindOf(c)])
  {
    NextState(m, out, c);
    hide ModelOk, Encode, Means;
    KindMeans(m.state, ks, KindOf(c));
  }

  /** Which state function each kind of operation uses. */
  lemma NextState(m: Model, out: seq<byte>, c: Choice)
    requires ModelOk(m) && ChoiceOk(m.reps, c)
    ensures m.state < STATES && Encode(m, out, c).m.state == AfterKind(m.state, KindOf(c))
  {
    hide Flip, PositionState, LzmaSymbols.LengthsOk, LzmaSymbols.DistancesOk;
    hide LzmaSymbols.EncodeLiteral, LzmaSymbols.EncodeLength, LzmaSymbols.EncodeDistance;
  }

  /** So after any list of choices the state is what its last operations mean. */
  lemma {:induction false} CodeMeans(m: Model, out: seq<byte>, w: Limits, cs: seq<Choice>, ks: seq<Kind>)
    requires ModelOk(m) && |m.reps| == 4 && AllAllowed(m.reps, out, w, cs) && Means(m.state, ks)
    ensures Means(Code(m, out, w, cs).m.state, ks + Kinds(cs))
    decreases |cs|
  {
    hide ModelOk, Encode, Allowed, Apply, Meaning, Means;
    if cs == [] {
      assert ks + Kinds(cs) == ks;
    } else {
      FirstAllowed(m, out, w, cs);
      NextMeans(m, out, cs[0], ks);
      var m' := Encode(m, out, cs[0]).m;
      CodeMeans(m', Apply(Meaning(m.reps, cs[0]), out), w, cs[1..], ks + [KindOf(cs[0])]);
      assert Kinds(cs) == [KindOf(cs[0])] + Kinds(cs[1..]);
      assert ks + [KindOf(cs[0])] + Kinds(cs[1..]) == ks + Kinds(cs);
    }
  }

  /** In particular when a decoder that started fresh has read them off a stream, whatever bytes it was given. */
  lemma DecodedMeans(lc: nat, lp: nat, pb: nat, input: seq<byte>, out: seq<byte>, w: Limits, n: nat, e: Ended)
    requires lc + lp <= 4 && pb <= 4
    requires DecodeStream(FreshModel(lc, lp, pb), input, out, w, Some(n), false) == Ok(e)
    ensures exists cs :: CarriedTo(FreshModel(lc, lp, pb), input, out, w, cs, e) && Means(e.m.state, Kinds(cs))
  {
    var m := FreshModel(lc, lp, pb);
    assert m.state == 0 && Means(0, []);
    hide FreshModel, Means, DecodeStream, AllAllowed, Code, Expand, Start, ModelOk;
    StreamExact(m, input, out, w, n, false, e);
    var cs :| CarriedTo(m, input, out, w, cs, e);
    CodeMeans(m, out, w, cs, []);
    assert [] + Kinds(cs) == Kinds(cs);
  }
}
