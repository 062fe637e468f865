/** Every run of the operation loop and of the chunk loop on arbitrary bytes: what it keeps, and why it can fail. */
module LzmaRuns {
  import opened Prelude
  import opened LzmaRange
  import opened LzmaOperations
  import opened LzmaTotality
  import L = LzmaStream
  import Z = Lzma2

  /** Where a run stands between two operations. */
  datatype Point = Point(m: Model, out: seq<byte>, r: Registers)

  predicate PointOk(p: Point) {
    ModelOk(p.m) && p.r.range >= TOP
  }

  /** What every point of a run has in common with its start. */
  ghost predicate Sound(start: Point, p: Point) {
    && PointOk(p) && RepsBelow(p.m)
    && p.m.lc == start.m.lc && p.m.lp == start.m.lp && p.m.pb == start.m.pb
    && start.out <= p.out
  }

  /** One turn of the loop, if it neither ends the run nor fails. */
  function Next(p: Point, w: L.Limits, target: Option<nat>): (n: Option<Point>)
    requires PointOk(p)
    ensures n.Some? ==> PointOk(n.value) && |p.out| < |n.value.out| <= w.maximum
  {
    hide ModelOk, DecodeOperation;
    L.OperationLengthIfOk(p.m, p.out, p.r);
    var d := DecodeOperation(p.m, p.out, p.r);
    if target == Some(|p.out|) || d.Err? || d.value.op.End? then None
    else
      var out := L.Perform(d.value.op, p.out, w, target);
      if out.Err? then None else Some(Point(d.value.m, out.value, d.value.next))
  }

  /** The point reached after `n` turns. */
  function After(p: Point, w: L.Limits, target: Option<nat>, n: nat): (q: Option<Point>)
    requires PointOk(p)
    ensures q.Some? ==> PointOk(q.value)
    decreases n
  {
    hide ModelOk, Next;
    if n == 0 then Some(p)
    else
      var q := Next(p, w, target);
      if q.None? then None else After(q.value, w, target, n - 1)
  }

  /** The reasons for which the loop gives up at a point. */
  datatype Cause = Truncated | OverLimit | NoHistory | OverSize | BadEnd

  /** Each of them can be read off the input, the output and the limits; there is no other. */
  predicate Stops(p: Point, w: L.Limits, target: Option<nat>, requireEnd: bool, cause: Cause)
    requires PointOk(p)
  {
    hide ModelOk, DecodeOperation;
    var d := DecodeOperation(p.m, p.out, p.r);
    && target != Some(|p.out|)
    && match cause
       case Truncated => d.Err? && |p.r.rest| < LONGEST
       case OverLimit =>
         d.Ok? && !d.value.op.End? && |p.out| + (if d.value.op.Match? then d.value.op.length else 1) > w.maximum
       case NoHistory =>
         d.Ok? && d.value.op.Match? && d.value.op.distance > Min(w.dictionary, |p.out| - w.start)
       case OverSize =>
         d.Ok? && d.value.op.Match? && target.Some? && |p.out| + d.value.op.length > target.value
       case BadEnd =>
         && d.Ok? && d.value.op.End?
         && (d.value.next.code != 0 || d.value.next.rest != [] || target.Some? || !requireEnd)
  }

  lemma NextKeeps(start: Point, p: Point, w: L.Limits, target: Option<nat>)
    requires PointOk(start) && Sound(start, p) && Next(p, w, target).Some?
    ensures Sound(start, Next(p, w, target).value)
  {
    hide ModelOk, DecodeOperation;
    OperationKeeps(p.m, p.out, p.r);
    L.OperationLength(p.m, p.out, p.r);
    Grows(DecodeOperation(p.m, p.out, p.r).value.op, p.out, w, target);
  }

  lemma Grows(op: Operation, out: seq<byte>, w: L.Limits, target: Option<nat>)
    requires !op.End? && (op.Match? ==> op.length >= 1) && L.Perform(op, out, w, target).Ok?
    ensures out <= L.Perform(op, out, w, target).value
  {
  }

  /** The end marker is in no remembered distance of any model a run reaches, and its properties never change. */
  lemma {:induction false} AfterKeeps(start: Point, p: Point, w: L.Limits, target: Option<nat>, n: nat)
    requires PointOk(start) && Sound(start, p) && After(p, w, target, n).Some?
    ensures Sound(start, After(p, w, target, n).value)
    decreases n
  {
    hide Sound, Next;
    if n > 0 {
      SoundOk(start, p);
      NextKeeps(start, p, w, target);
      AfterKeeps(start, Next(p, w, target).value, w, target, n - 1);
    }
  }

  lemma SoundOk(start: Point, p: Point)
    requires Sound(start, p)
    ensures PointOk(p) && RepsBelow(p.m)
  {
  }

  /** A failing operation was cut short: with any 48 bytes more it would have decoded. */
  lemma CutShort(p: Point)
    requires PointOk(p) && RepsBelow(p.m) && DecodeOperation(p.m, p.out, p.r).Err?
    ensures |p.r.rest| < LONGEST
  {
    hide DecodeOperation, ModelOk;
    if |p.r.rest| >= LONGEST {
      OperationSucceeds(p.m, p.out, p.r);
    }
  }

  /** A point with a successor passes the run on. */
  lemma GoesOn(p: Point, w: L.Limits, target: Option<nat>, requireEnd: bool)
    requires PointOk(p) && Next(p, w, target).Some?
    ensures var q := Next(p, w, target).value;
            L.Run(p.m, p.out, w, p.r, target, requireEnd) == L.Run(q.m, q.out, w, q.r, target, requireEnd)
    ensures forall cause :: !Stops(p, w, target, requireEnd, cause)
  {
    hide ModelOk, DecodeOperation, Keeps;
    L.OperationLength(p.m, p.out, p.r);
  }

  /** A point without one ends the run, and fails for one of the five causes. */
  lemma GivesUp(p: Point, w: L.Limits, target: Option<nat>, requireEnd: bool) returns (cause: Cause)
    requires PointOk(p) && RepsBelow(p.m) && Next(p, w, target).None?
    ensures L.Run(p.m, p.out, w, p.r, target, requireEnd).Err? ==> Stops(p, w, target, requireEnd, cause)
    ensures L.Run(p.m, p.out, w, p.r, target, requireEnd).Ok? ==> forall c :: !Stops(p, w, target, requireEnd, c)
  {
    hide ModelOk, DecodeOperation;
    cause := Truncated;
    var d := DecodeOperation(p.m, p.out, p.r);
    if target == Some(|p.out|) {
    } else if d.Err? {
      CutShort(p);
    } else {
      OperationKeeps(p.m, p.out, p.r);
      L.OperationLength(p.m, p.out, p.r);
      L.FourReps(p.m);
      L.FourReps(d.value.m);
      assert d.value.op.Match? ==> d.value.op.distance >= 1;
      hide Keeps, RepsBelow;
      match d.value.op
      case End => cause := BadEnd;
      case Literal(_) => cause := OverLimit;
      case Match(distance, length) =>
        cause := if target.Some? && |p.out| + length > target.value then OverSize
                 else if distance > Min(w.dictionary, |p.out| - w.start) then NoHistory else OverLimit;
    }
  }

  ghost predicate StopsAfter(p: Point, w: L.Limits, target: Option<nat>, requireEnd: bool, n: nat, cause: Cause)
    requires PointOk(p)
  {
    After(p, w, target, n).Some? && Stops(After(p, w, target, n).value, w, target, requireEnd, cause)
  }

  ghost predicate StopsSometime(p: Point, w: L.Limits, target: Option<nat>, requireEnd: bool)
    requires PointOk(p)
  {
    exists n: nat, cause :: StopsAfter(p, w, target, requireEnd, n, cause)
  }

  lemma StopsNow(p: Point, w: L.Limits, target: Option<nat>, requireEnd: bool)
    requires PointOk(p) && Next(p, w, target).None?
    ensures StopsSometime(p, w, target, requireEnd) <==> exists cause :: Stops(p, w, target, requireEnd, cause)
  {
    hide PointOk, Next, Stops;
    if cause :| Stops(p, w, target, requireEnd, cause) {
      assert StopsAfter(p, w, target, requireEnd, 0, cause);
    }
  }

  lemma StopsLater(p: Point, w: L.Limits, target: Option<nat>, requireEnd: bool)
    requires PointOk(p) && Next(p, w, target).Some?
    requires forall cause :: !Stops(p, w, target, requireEnd, cause)
    ensures StopsSometime(p, w, target, requireEnd) <==> StopsSometime(Next(p, w, target).value, w, target, requireEnd)
  {
    hide PointOk, Next, Stops;
    var q := Next(p, w, target).value;
    if StopsSometime(p, w, target, requireEnd) {
      var n: nat, cause :| StopsAfter(p, w, target, requireEnd, n, cause);
      assert StopsAfter(q, w, target, requireEnd, n - 1, cause);
    }
    if StopsSometime(q, w, target, requireEnd) {
      var n: nat, cause :| StopsAfter(q, w, target, requireEnd, n, cause);
      assert StopsAfter(p, w, target, requireEnd, n + 1, cause);
    }
  }

  /** A run over any bytes fails exactly when it reaches a point that stops it for one of the five causes. */
  lemma {:induction false} RunFails(p: Point, w: L.Limits, target: Option<nat>, requireEnd: bool)
    requires PointOk(p) && RepsBelow(p.m)
    ensures L.Run(p.m, p.out, w, p.r, target, requireEnd).Err? <==> StopsSometime(p, w, target, requireEnd)
    decreases w.maximum - |p.out|
  {
    hide ModelOk, Next, Stops, RepsBelow, L.Run, StopsSometime, Sound;
    var q := Next(p, w, target);
    if q.None? {
      StopsNow(p, w, target, requireEnd);
      var cause := GivesUp(p, w, target, requireEnd);
    } else {
      GoesOn(p, w, target, requireEnd);
      StopsLater(p, w, target, requireEnd);
      SoundSelf(p);
      NextKeeps(p, p, w, target);
      SoundOk(p, q.value);
      RunFails(q.value, w, target, requireEnd);
    }
  }

  lemma SoundSelf(p: Point)
    requires PointOk(p) && RepsBelow(p.m)
    ensures Sound(p, p)
  {
  }

  // ---- whole streams ----

  lemma FreshBelow(lc: nat, lp: nat, pb: nat)
    requires lc + lp <= 4 && pb <= 4
    ensures RepsBelow(FreshModel(lc, lp, pb))
  {
  }

  /** A run of known size leaves a model that a later run can continue with. */
  lemma {:induction false} RunKeeps(p: Point, w: L.Limits, target: Option<nat>, requireEnd: bool)
    requires PointOk(p) && RepsBelow(p.m) && target.Some?
    ensures var x := L.Run(p.m, p.out, w, p.r, target, requireEnd); x.Ok? ==> RepsBelow(x.value.m)
    decreases w.maximum - |p.out|
  {
    hide ModelOk, DecodeOperation, RepsBelow, Sound;
    if Next(p, w, target).Some? {
      hide Next, L.Run;
      GoesOn(p, w, target, requireEnd);
      SoundSelf(p);
      NextKeeps(p, p, w, target);
      SoundOk(p, Next(p, w, target).value);
      RunKeeps(Next(p, w, target).value, w, target, requireEnd);
    } else {
      SizedRunEnds(p, w, target, requireEnd);
    }
  }

  lemma SizedRunEnds(p: Point, w: L.Limits, target: Option<nat>, requireEnd: bool)
    requires PointOk(p) && target.Some? && Next(p, w, target).None?
    ensures var x := L.Run(p.m, p.out, w, p.r, target, requireEnd); x.Ok? ==> x.value.m == p.m
  {
    hide ModelOk, DecodeOperation;
    L.OperationLengthIfOk(p.m, p.out, p.r);
  }

  /** What makes a range-coded stream fail: its size, its first five bytes, or a point that stops its run. */
  lemma StreamFails(m: Model, input: seq<byte>, out: seq<byte>, w: L.Limits, increment: Option<nat>, requireEnd: bool)
    requires ModelOk(m) && RepsBelow(m)
    ensures var target := if increment.Some? then Some(|out| + increment.value) else None;
            L.DecodeStream(m, input, out, w, increment, requireEnd).Err? <==>
              || (target.Some? && target.value > w.maximum)
              || Start(input).Err?
              || StopsSometime(Point(m, out, Start(input).value), w, target, requireEnd)
    ensures var x := L.DecodeStream(m, input, out, w, increment, requireEnd);
            x.Ok? && increment.Some? ==> RepsBelow(x.value.m)
  {
    hide ModelOk, L.Run, StopsSometime, RepsBelow;
    var target := if increment.Some? then Some(|out| + increment.value) else None;
    if Start(input).Ok? {
      RunFails(Point(m, out, Start(input).value), w, target, requireEnd);
      if target.Some? {
        RunKeeps(Point(m, out, Start(input).value), w, target, requireEnd);
      }
    }
  }

  // ---- chunks ----

  /** No chunk leaves the end marker behind as a distance. */
  ghost predicate StateBelow(s: Z.State)
    requires Z.StateOk(s)
  {
    s.m.Some? ==> |s.m.value.reps| == 4 && RepsBelow(s.m.value)
  }

  lemma SelectBelow(s: Z.State, control: byte, rest: seq<byte>)
    requires Z.StateOk(s) && StateBelow(s) && Z.Select(s, control, rest).Ok?
    ensures var m := Z.Select(s, control, rest).value.0; ModelOk(m) && |m.reps| == 4 && RepsBelow(m)
  {
    hide ModelOk, FreshModel, L.PropertiesFromByte, RepsBelow;
    L.FourReps(Z.Select(s, control, rest).value.0);
    if control >= 0xc0 {
      var p := L.PropertiesFromByte(rest[0]).value;
      FreshBelow(p.lc, p.lp, p.pb);
    } else if control >= 0xa0 {
      FreshOf(s.m.value);
      FreshBelow(s.m.value.lc, s.m.value.lp, s.m.value.pb);
    }
  }

  lemma FreshOf(m: Model)
    requires ModelOk(m)
    ensures m.lc + m.lp <= 4 && m.pb <= 4
  {
  }

  /** Why a compressed chunk fails: its header, the size it announces, or a point that stops its run. */
  lemma PackedFails(s: Z.State, w: Z.Bounds, control: byte, rest: seq<byte>)
    requires Z.StateOk(s) && StateBelow(s) && control >= 0x80
    ensures Z.PackedStep(s, w, control, rest).Err? <==>
              || |rest| < 4
              || Z.Select(s, control, rest[4..]).Err?
              || (var (m, tail) := Z.Select(s, control, rest[4..]).value;
                  var packed := Z.Pair(rest[2], rest[3]) + 1;
                  var target := |s.out| + control % 0x20 * 0x1_0000 + Z.Pair(rest[0], rest[1]) + 1;
                  || packed > |tail| || target > w.maximum || Start(tail[..packed]).Err?
                  || StopsSometime(Point(m, s.out, Start(tail[..packed]).value), Z.Window(s, w), Some(target), false))
    ensures var x := Z.PackedStep(s, w, control, rest); x.Ok? ==> StateBelow(x.value.s)
  {
    hide ModelOk, L.DecodeStream, Z.Select, Z.Pair, StopsSometime, RepsBelow, Start;
    if |rest| >= 4 && Z.Select(s, control, rest[4..]).Ok? {
      SelectBelow(s, control, rest[4..]);
      var (m, tail) := Z.Select(s, control, rest[4..]).value;
      var packed := Z.Pair(rest[2], rest[3]) + 1;
      var unpacked := control % 0x20 * 0x1_0000 + Z.Pair(rest[0], rest[1]) + 1;
      if packed <= |tail| {
        StreamFails(m, tail[..packed], s.out, Z.Window(s, w), Some(unpacked), false);
        var x := L.DecodeStream(m, tail[..packed], s.out, Z.Window(s, w), Some(unpacked), false);
        if x.Ok? {
          L.FourReps(x.value.m);
        }
      }
    }
  }

  /** The state after `n` chunks. */
  function Chunks(s: Z.State, w: Z.Bounds, rest: seq<byte>, n: nat): (x: Option<Z.Step>)
    requires Z.StateOk(s)
    ensures x.Some? ==> Z.StateOk(x.value.s)
    decreases n
  {
    hide Z.StateOk, Z.ChunkStep;
    if n == 0 then Some(Z.Step(s, rest))
    else if rest == [] || rest[0] == 0 || Z.ChunkStep(s, w, rest[0], rest[1..]).Err? then None
    else
      var x := Z.ChunkStep(s, w, rest[0], rest[1..]).value;
      Chunks(x.s, w, x.rest, n - 1)
  }

  lemma ChunkBelow(s: Z.State, w: Z.Bounds, control: byte, rest: seq<byte>)
    requires Z.StateOk(s) && StateBelow(s) && Z.ChunkStep(s, w, control, rest).Ok?
    ensures StateBelow(Z.ChunkStep(s, w, control, rest).value.s)
  {
    hide ModelOk, Z.PackedStep, RepsBelow, Z.Pair;
    var e := Z.Enter(s, control).value;
    if control >= 0x80 {
      PackedFails(e, w, control, rest);
    }
  }

  /** So every state a chunk stream reaches is one from which runs fail only for the five causes. */
  lemma {:induction false} ChunksBelow(s: Z.State, w: Z.Bounds, rest: seq<byte>, n: nat)
    requires Z.StateOk(s) && StateBelow(s) && Chunks(s, w, rest, n).Some?
    ensures StateBelow(Chunks(s, w, rest, n).value.s)
    decreases n
  {
    hide Z.StateOk, Z.ChunkStep, StateBelow;
    if n > 0 {
      ChunkBelow(s, w, rest[0], rest[1..]);
      var x := Z.ChunkStep(s, w, rest[0], rest[1..]).value;
      ChunksBelow(x.s, w, x.rest, n - 1);
    }
  }

  /** In particular at every chunk of every LZMA2 stream. */
  lemma StreamBelow(w: Z.Bounds, input: seq<byte>, n: nat)
    requires Chunks(Z.INITIAL, w, input, n).Some?
    ensures StateBelow(Chunks(Z.INITIAL, w, input, n).value.s)
  {
    ChunksBelow(Z.INITIAL, w, input, n);
  }
}
