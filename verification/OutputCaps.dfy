/** The output limit of every decoder in this model: it turns long outputs down and changes nothing else. */
module OutputCaps {
  import opened Prelude
  import R = LzmaRange
  import O = LzmaOperations
  import L = LzmaStream
  import Z = Lzma2
  import B = Deflate64Blocks
  import D = Deflate64Stream
  import J = Bcj2Filter
  import H = Deflate64Huffman
  import T = Deflate64Trees
  import G = Deflate64Bits
  import BitStrings

  /** Under the smaller limit: the same result if it fits, an error otherwise. */
  predicate Exact<T(==)>(small: Result<T>, large: Result<T>, fits: bool) {
    (small.Ok? <==> large.Ok? && fits) && (small.Ok? ==> small == large)
  }

  /** A decoder with a limit `x(cap)` obeys it exactly. */
  predicate Obeys(small: Result<seq<byte>>, large: Result<seq<byte>>, cap: nat) {
    Exact(small, large, large.Ok? && |large.value| <= cap)
  }

  // ---- LZMA ----

  lemma {:induction false} RunGrows(m: O.Model, out: seq<byte>, w: L.Limits, r: R.Registers, target: Option<nat>,
                                    requireEnd: bool)
    requires O.ModelOk(m) && r.range >= R.TOP
    ensures var x := L.Run(m, out, w, r, target, requireEnd); x.Ok? ==> |x.value.out| >= |out|
    decreases w.maximum - |out|
  {
    hide O.ModelOk, O.DecodeOperation, O.Keeps;
    if target != Some(|out|) && O.DecodeOperation(m, out, r).Ok? {
      var d := O.DecodeOperation(m, out, r).value;
      L.OperationLength(m, out, r);
      if !d.op.End? && L.Perform(d.op, out, w, target).Ok? {
        RunGrows(d.m, L.Perform(d.op, out, w, target).value, w, d.next, target, requireEnd);
      }
    }
  }

  lemma {:induction false} RunObeys(m: O.Model, out: seq<byte>, w: L.Limits, r: R.Registers, target: Option<nat>,
                                    requireEnd: bool, cap: nat)
    requires O.ModelOk(m) && r.range >= R.TOP && |out| <= cap <= w.maximum
    ensures var large := L.Run(m, out, w, r, target, requireEnd);
            Exact(L.Run(m, out, w.(maximum := cap), r, target, requireEnd), large,
                  large.Ok? && |large.value.out| <= cap)
    decreases w.maximum - |out|
  {
    hide O.ModelOk, O.DecodeOperation, O.Keeps;
    if target != Some(|out|) && O.DecodeOperation(m, out, r).Ok? {
      var d := O.DecodeOperation(m, out, r).value;
      L.OperationLength(m, out, r);
      if !d.op.End? {
        PerformObeys(d.op, out, w, target, cap);
        var o := L.Perform(d.op, out, w, target);
        if o.Ok? {
          RunGrows(d.m, o.value, w, d.next, target, requireEnd);
          if |o.value| <= cap {
            RunObeys(d.m, o.value, w, d.next, target, requireEnd, cap);
          }
        }
      }
    }
  }

  lemma PerformObeys(op: O.Operation, out: seq<byte>, w: L.Limits, target: Option<nat>, cap: nat)
    requires !op.End? && (op.Match? ==> op.length >= 1) && cap <= w.maximum
    ensures Obeys(L.Perform(op, out, w.(maximum := cap), target), L.Perform(op, out, w, target), cap)
  {
  }

  lemma StreamObeys(m: O.Model, input: seq<byte>, out: seq<byte>, w: L.Limits, increment: Option<nat>,
                    requireEnd: bool, cap: nat)
    requires O.ModelOk(m) && |out| <= cap <= w.maximum
    ensures var large := L.DecodeStream(m, input, out, w, increment, requireEnd);
            && (large.Ok? ==> |large.value.out| >= |out|)
            && Exact(L.DecodeStream(m, input, out, w.(maximum := cap), increment, requireEnd), large,
                     large.Ok? && |large.value.out| <= cap)
  {
    hide O.ModelOk, L.Run;
    var r := R.Start(input);
    if r.Ok? {
      var target := if increment.Some? then Some(|out| + increment.value) else None;
      RunGrows(m, out, w, r.value, target, requireEnd);
      RunObeys(m, out, w, r.value, target, requireEnd, cap);
    }
  }

  /** LZMA obeys its limit. */
  lemma LzmaObeys(input: seq<byte>, properties: seq<byte>, expected: Option<nat>, cap: nat, maximum: nat)
    requires cap <= maximum
    ensures Obeys(L.DecodeLzma(input, properties, expected, cap), L.DecodeLzma(input, properties, expected, maximum),
                  cap)
  {
    hide O.ModelOk, L.DecodeStream, L.PropertiesFromByte, O.FreshModel;
    if |properties| == 5 && L.PropertiesFromByte(properties[0]).Ok? {
      var p := L.PropertiesFromByte(properties[0]).value;
      var w := L.LzmaLimits(properties[1..], maximum);
      StreamObeys(O.FreshModel(p.lc, p.lp, p.pb), input, [], w, expected, expected.None?, cap);
    }
  }

  // ---- Deflate64 ----

  lemma {:induction false} BlockGrows(ls: H.Lengths, ds: H.Lengths, bits: BitStrings.Bits, out: seq<byte>, w: B.Bounds)
    ensures var x := B.Block(ls, ds, bits, out, w); x.Ok? ==> |x.value.0| >= |out|
    decreases |bits|
  {
    hide B.ReadToken, B.Put;
    if B.ReadToken(ls, ds, bits).Ok? {
      var (t, n) := B.ReadToken(ls, ds, bits).value;
      if t.Some? && B.Put(t.value, out, w).Ok? {
        PutObeys(t.value, out, w, w.maximum);
        BlockGrows(ls, ds, n, B.Put(t.value, out, w).value, w);
      }
    }
  }

  lemma PutObeys(t: B.Token, out: seq<byte>, w: B.Bounds, cap: nat)
    requires (t.Match? ==> t.lengthCode < 29) && cap <= w.maximum
    ensures B.Put(t, out, w).Ok? ==> |B.Put(t, out, w).value| >= |out|
    ensures Obeys(B.Put(t, out, w.(maximum := cap)), B.Put(t, out, w), cap)
  {
  }

  lemma {:induction false} BlockObeys(ls: H.Lengths, ds: H.Lengths, bits: BitStrings.Bits, out: seq<byte>, w: B.Bounds,
                                      cap: nat)
    requires |out| <= cap <= w.maximum
    ensures var large := B.Block(ls, ds, bits, out, w);
            Exact(B.Block(ls, ds, bits, out, w.(maximum := cap)), large, large.Ok? && |large.value.0| <= cap)
    decreases |bits|
  {
    hide B.ReadToken, B.Put;
    if B.ReadToken(ls, ds, bits).Ok? {
      var (t, n) := B.ReadToken(ls, ds, bits).value;
      if t.Some? {
        PutObeys(t.value, out, w, cap);
        var o := B.Put(t.value, out, w);
        if o.Ok? {
          BlockGrows(ls, ds, n, o.value, w);
          if |o.value| <= cap {
            BlockObeys(ls, ds, n, o.value, w, cap);
          }
        }
      }
    }
  }

  lemma StoredObeys(bits: BitStrings.Bits, out: seq<byte>, w: B.Bounds, cap: nat)
    requires |out| <= cap <= w.maximum
    ensures var large := D.StoredBlock(bits, out, w);
            && (large.Ok? ==> |large.value.0| >= |out|)
            && Exact(D.StoredBlock(bits, out, w.(maximum := cap)), large, large.Ok? && |large.value.0| <= cap)
  {
  }

  lemma BodyObeys(bits: BitStrings.Bits, out: seq<byte>, w: B.Bounds, cap: nat)
    requires |out| <= cap <= w.maximum
    ensures var large := D.BlockBody(bits, out, w);
            && (large.Ok? ==> |large.value.0| >= |out|)
            && Exact(D.BlockBody(bits, out, w.(maximum := cap)), large, large.Ok? && |large.value.0| <= cap)
  {
    hide D.StoredBlock, T.DynamicTrees, B.Block, G.TakeBits;
    if G.TakeBits(bits, 2).Ok? {
      var (kind, n) := G.TakeBits(bits, 2).value;
      StoredObeys(n, out, w, cap);
      BlockGrows(T.FIXED_LITERALS, T.FIXED_DISTANCES, n, out, w);
      BlockObeys(T.FIXED_LITERALS, T.FIXED_DISTANCES, n, out, w, cap);
      if kind == 2 && T.DynamicTrees(n).Ok? {
        var ((ls, ds), n1) := T.DynamicTrees(n).value;
        BlockGrows(ls, ds, n1, out, w);
        BlockObeys(ls, ds, n1, out, w, cap);
      }
    }
  }

  lemma {:induction false} BlocksGrow(bits: BitStrings.Bits, out: seq<byte>, w: B.Bounds)
    ensures D.Stream(bits, out, w).Ok? ==> |D.Stream(bits, out, w).value| >= |out|
    decreases |bits|
  {
    hide D.BlockBody, G.TakeBits;
    if G.TakeBits(bits, 1).Ok? {
      var (final, n) := G.TakeBits(bits, 1).value;
      BodyGrows(n, out, w);
      if D.BlockBody(n, out, w).Ok? {
        var (out', rest) := D.BlockBody(n, out, w).value;
        BlocksGrow(rest, out', w);
      }
    }
  }

  lemma BodyGrows(bits: BitStrings.Bits, out: seq<byte>, w: B.Bounds)
    ensures var x := D.BlockBody(bits, out, w); x.Ok? ==> |x.value.0| >= |out|
  {
    hide T.DynamicTrees, B.Block, G.TakeBits;
    if G.TakeBits(bits, 2).Ok? {
      var (kind, n) := G.TakeBits(bits, 2).value;
      BlockGrows(T.FIXED_LITERALS, T.FIXED_DISTANCES, n, out, w);
      if kind == 2 && T.DynamicTrees(n).Ok? {
        var ((ls, ds), n1) := T.DynamicTrees(n).value;
        BlockGrows(ls, ds, n1, out, w);
      }
    }
  }

  lemma {:induction false} BlocksObey(bits: BitStrings.Bits, out: seq<byte>, w: B.Bounds, cap: nat)
    requires |out| <= cap <= w.maximum
    ensures Obeys(D.Stream(bits, out, w.(maximum := cap)), D.Stream(bits, out, w), cap)
    decreases |bits|
  {
    hide D.BlockBody, G.TakeBits;
    if G.TakeBits(bits, 1).Ok? {
      var (final, n) := G.TakeBits(bits, 1).value;
      BodyObeys(n, out, w, cap);
      if D.BlockBody(n, out, w).Ok? {
        var (out', rest) := D.BlockBody(n, out, w).value;
        BlocksGrow(rest, out', w);
        if |out'| <= cap {
          BlocksObey(rest, out', w, cap);
        }
      }
    }
  }

  /** Deflate64 obeys its limit. */
  lemma Deflate64Obeys(input: seq<byte>, expected: Option<nat>, maxDictionary: nat, cap: nat, maximum: nat)
    requires cap <= maximum
    ensures Obeys(D.DecodeDeflate64(input, expected, cap, maxDictionary),
                  D.DecodeDeflate64(input, expected, maximum, maxDictionary), cap)
  {
    hide D.Stream;
    var bits := G.BytesBits(input);
    BlocksObey(bits, [], B.Bounds(expected, maximum), cap);
    StreamSize(bits, [], B.Bounds(expected, maximum));
  }

  lemma {:induction false} StreamSize(bits: BitStrings.Bits, out: seq<byte>, w: B.Bounds)
    ensures D.Stream(bits, out, w).Ok? && w.expected.Some? ==> |D.Stream(bits, out, w).value| == w.expected.value
    decreases |bits|
  {
    hide D.BlockBody, G.TakeBits;
    if G.TakeBits(bits, 1).Ok? {
      var (final, n) := G.TakeBits(bits, 1).value;
      if final == 0 && D.BlockBody(n, out, w).Ok? {
        var (out', rest) := D.BlockBody(n, out, w).value;
        StreamSize(rest, out', w);
      }
    }
  }

  // ---- LZMA2 ----

  predicate StepObeys(small: Result<Z.Step>, large: Result<Z.Step>, size: nat, cap: nat) {
    && (large.Ok? ==> |large.value.s.out| >= size)
    && Exact(small, large, large.Ok? && |large.value.s.out| <= cap)
  }

  lemma PackedObeys(s: Z.State, w: Z.Bounds, control: byte, rest: seq<byte>, cap: nat)
    requires Z.StateOk(s) && control >= 0x80 && |s.out| <= cap <= w.maximum
    ensures StepObeys(Z.PackedStep(s, w.(maximum := cap), control, rest), Z.PackedStep(s, w, control, rest),
                      |s.out|, cap)
  {
    hide O.ModelOk, O.FreshModel, L.PropertiesFromByte, L.DecodeStream, Z.Pair, Z.Select;
    if |rest| >= 4 && Z.Select(s, control, rest[4..]).Ok? {
      var (m, tail) := Z.Select(s, control, rest[4..]).value;
      var packed := Z.Pair(rest[2], rest[3]) + 1;
      if packed <= |tail| {
        StreamObeys(m, tail[..packed], s.out, Z.Window(s, w),
                    Some(control % 0x20 * 0x1_0000 + Z.Pair(rest[0], rest[1]) + 1), false, cap);
      }
    }
  }

  lemma ChunkObeys(s: Z.State, w: Z.Bounds, control: byte, rest: seq<byte>, cap: nat)
    requires Z.StateOk(s) && |s.out| <= cap <= w.maximum
    ensures StepObeys(Z.ChunkStep(s, w.(maximum := cap), control, rest), Z.ChunkStep(s, w, control, rest),
                      |s.out|, cap)
  {
    hide O.ModelOk, Z.PackedStep, Z.Pair;
    var e := Z.Enter(s, control);
    if e.Ok? && control >= 0x80 {
      hide Z.Enter;
      PackedObeys(e.value, w, control, rest, cap);
    }
  }

  lemma {:induction false} ChunksObey(s: Z.State, w: Z.Bounds, rest: seq<byte>, cap: nat)
    requires Z.StateOk(s) && |s.out| <= cap <= w.maximum
    ensures Obeys(Z.RunChunks(s, w.(maximum := cap), rest), Z.RunChunks(s, w, rest), cap)
    decreases |rest|
  {
    hide Z.StateOk, Z.ChunkStep;
    if rest != [] && rest[0] != 0 {
      ChunkObeys(s, w, rest[0], rest[1..], cap);
      var x := Z.ChunkStep(s, w, rest[0], rest[1..]);
      if x.Ok? {
        ChunksGrow(x.value.s, w, x.value.rest);
        if |x.value.s.out| <= cap {
          ChunksObey(x.value.s, w, x.value.rest, cap);
        }
      }
    }
  }

  lemma {:induction false} ChunksGrow(s: Z.State, w: Z.Bounds, rest: seq<byte>)
    requires Z.StateOk(s)
    ensures Z.RunChunks(s, w, rest).Ok? ==> |Z.RunChunks(s, w, rest).value| >= |s.out|
    decreases |rest|
  {
    hide Z.StateOk, Z.ChunkStep;
    if rest != [] && rest[0] != 0 {
      var x := Z.ChunkStep(s, w, rest[0], rest[1..]);
      if x.Ok? {
        ChunkGrows(s, w, rest[0], rest[1..]);
        ChunksGrow(x.value.s, w, x.value.rest);
      }
    }
  }

  lemma ChunkGrows(s: Z.State, w: Z.Bounds, control: byte, rest: seq<byte>)
    requires Z.StateOk(s) && Z.ChunkStep(s, w, control, rest).Ok?
    ensures |Z.ChunkStep(s, w, control, rest).value.s.out| >= |s.out|
  {
    hide O.ModelOk, O.FreshModel, L.PropertiesFromByte, L.DecodeStream, Z.Pair;
  }

  /** LZMA2 obeys its limit. */
  lemma Lzma2Obeys(input: seq<byte>, properties: seq<byte>, expected: Option<nat>, cap: nat, maximum: nat)
    requires cap <= maximum
    ensures Obeys(Z.DecodeLzma2(input, properties, expected, cap), Z.DecodeLzma2(input, properties, expected, maximum),
                  cap)
  {
    hide Z.RunChunks, Z.Dictionary;
    if Z.Dictionary(properties).Ok? {
      var w := Z.Bounds(maximum, Z.Dictionary(properties).value, expected);
      ChunksObey(Z.INITIAL, w, input, cap);
      ChunksSize(Z.INITIAL, w, input);
    }
  }

  lemma {:induction false} ChunksSize(s: Z.State, w: Z.Bounds, rest: seq<byte>)
    requires Z.StateOk(s)
    ensures var x := Z.RunChunks(s, w, rest); x.Ok? && w.expected.Some? ==> |x.value| == w.expected.value
    decreases |rest|
  {
    hide Z.StateOk, Z.ChunkStep;
    if rest != [] && rest[0] != 0 {
      var x := Z.ChunkStep(s, w, rest[0], rest[1..]);
      if x.Ok? {
        ChunksSize(x.value.s, w, x.value.rest);
      }
    }
  }

  // ---- BCJ2 ----

  lemma {:induction false} MergeGrows(s: J.Sources, c: J.Coder, previous: byte, out: seq<byte>, maximum: nat)
    requires J.CoderOk(c)
    ensures var x := J.Merge(s, c, previous, out, maximum); x.Ok? ==> |x.value| >= |out|
    decreases |s.main|
  {
    hide J.IsBranch, J.Convert, J.CoderOk;
    if s.main != [] {
      var b, rest, out' := s.main[0], s.(main := s.main[1..]), out + [s.main[0]];
      if !J.IsBranch(previous, b) {
        MergeGrows(rest, c, b, out', maximum);
      } else if J.Convert(rest, c, previous, b, out', maximum).Ok? {
        var t := J.Convert(rest, c, previous, b, out', maximum).value;
        ConvertGrows(rest, c, previous, b, out', maximum);
        MergeGrows(t.s, t.c, t.previous, t.out, maximum);
      }
    }
  }

  lemma ConvertGrows(s: J.Sources, c: J.Coder, previous: byte, b: byte, out: seq<byte>, maximum: nat)
    requires J.CoderOk(c) && J.Convert(s, c, previous, b, out, maximum).Ok?
    ensures |J.Convert(s, c, previous, b, out, maximum).value.out| >= |out|
  {
    hide J.DecodeFlag, J.Operand, J.Relative;
  }

  lemma ConvertObeys(s: J.Sources, c: J.Coder, previous: byte, b: byte, out: seq<byte>, cap: nat, maximum: nat)
    requires J.CoderOk(c) && cap <= maximum && |out| <= cap
    ensures var large := J.Convert(s, c, previous, b, out, maximum);
            Exact(J.Convert(s, c, previous, b, out, cap), large, large.Ok? && |large.value.out| <= cap)
  {
    hide J.DecodeFlag, J.Operand, J.Relative;
  }

  lemma {:induction false} MergeObeys(s: J.Sources, c: J.Coder, previous: byte, out: seq<byte>, cap: nat, maximum: nat)
    requires J.CoderOk(c) && |out| <= cap <= maximum
    ensures Obeys(J.Merge(s, c, previous, out, cap), J.Merge(s, c, previous, out, maximum), cap)
    decreases |s.main|
  {
    hide J.IsBranch, J.Convert, J.CoderOk;
    if s.main != [] {
      var b, rest, out' := s.main[0], s.(main := s.main[1..]), out + [s.main[0]];
      if !J.IsBranch(previous, b) {
        MergeGrows(rest, c, b, out', maximum);
        if |out'| <= cap {
          MergeObeys(rest, c, b, out', cap, maximum);
        }
      } else if |out'| <= cap {
        ConvertObeys(rest, c, previous, b, out', cap, maximum);
        if J.Convert(rest, c, previous, b, out', maximum).Ok? {
          var t := J.Convert(rest, c, previous, b, out', maximum).value;
          MergeGrows(t.s, t.c, t.previous, t.out, maximum);
          if |t.out| <= cap {
            MergeObeys(t.s, t.c, t.previous, t.out, cap, maximum);
          }
        }
      } else if J.Convert(rest, c, previous, b, out', maximum).Ok? {
        var t := J.Convert(rest, c, previous, b, out', maximum).value;
        ConvertGrows(rest, c, previous, b, out', maximum);
        MergeGrows(t.s, t.c, t.previous, t.out, maximum);
      }
    }
  }

  /** BCJ2 obeys its limit. */
  lemma Bcj2Obeys(inputs: seq<seq<byte>>, properties: seq<byte>, expected: Option<nat>, cap: nat, maximum: nat)
    requires cap <= maximum
    ensures Obeys(J.DecodeBcj2(inputs, properties, expected, cap), J.DecodeBcj2(inputs, properties, expected, maximum),
                  cap)
  {
    hide J.Merge, J.Begin;
    if properties == [] && |inputs| == 4 && J.Begin(inputs[3]).Ok? {
      MergeObeys(J.Sources(inputs[0], inputs[1], inputs[2]), J.Coder(J.Fresh(), J.Begin(inputs[3]).value), 0, [],
                 cap, maximum);
    }
  }
}
