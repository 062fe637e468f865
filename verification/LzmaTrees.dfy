/** Adaptive bit trees: `ProbabilityTree`, forwards and in reverse, and runs of direct bits. */
module LzmaTrees {
  import opened Prelude
  import opened LzmaRange

  /** A run that begins with an adaptive bit. */
  lemma ReplayBit(r: Registers, p: Prob, b: bit, ds: seq<Decision>)
    requires r.range >= TOP
    ensures BitStep(r, p).Err? || BitStep(r, p).value.0 != b ==> Replay(r, [Adaptive(p, b)] + ds).None?
    ensures BitStep(r, p).Ok? && BitStep(r, p).value.0 == b ==>
              Replay(r, [Adaptive(p, b)] + ds) == Replay(BitStep(r, p).value.1, ds)
  {
    assert ([Adaptive(p, b)] + ds)[1..] == ds;
  }

  type Tree = seq<Prob>

  /** A node from which `left` further bits stay inside a tree of `size` probabilities. */
  predicate Fits(size: nat, node: nat, left: nat) {
    node >= 1 && (node + 1) * Pow2(left) <= 2 * size
  }

  lemma FitsStep(size: nat, node: nat, left: nat)
    requires Fits(size, node, left) && left > 0
    ensures node < size && Fits(size, 2 * node, left - 1) && Fits(size, 2 * node + 1, left - 1)
  {
    var p := Pow2(left - 1);
    assert (node + 1) * (2 * p) == (2 * node + 2) * p;
    MulAtMost(2 * node + 1, 2 * node + 2, p);
    assert (2 * node + 2) * p >= 2 * node + 2 by {
      MulAtMost(1, p, 2 * node + 2);
    }
  }

  lemma FitsRoot(bits: nat)
    ensures Fits(Pow2(bits), 1, bits)
  {
  }

  datatype Decoded = Decoded(value: nat, tree: Tree, next: Registers)
  datatype Coded = Coded(ds: seq<Decision>, tree: Tree)

  /** The most significant bit first; the result still has the leading one of the node. */
  function DecodeFrom(t: Tree, node: nat, left: nat, r: Registers): (d: Result<Decoded>)
    requires Fits(|t|, node, left) && r.range >= TOP
    ensures d.Ok? ==> d.value.next.range >= TOP && |d.value.tree| == |t|
    decreases left
  {
    if left == 0 then Ok(Decoded(node, t, r))
    else
      FitsStep(|t|, node, left);
      var (b, n) :- BitStep(r, t[node]);
      DecodeFrom(t[node := Adapt(t[node], b)], 2 * node + b, left - 1, n)
  }

  function EncodeFrom(t: Tree, node: nat, left: nat, v: nat): (c: Coded)
    requires Fits(|t|, node, left) && v < Pow2(left)
    ensures |c.tree| == |t|
    decreases left
  {
    if left == 0 then Coded([], t)
    else
      FitsStep(|t|, node, left);
      var b: bit := if v >= Pow2(left - 1) then 1 else 0;
      var tail := EncodeFrom(t[node := Adapt(t[node], b)], 2 * node + b, left - 1, v - Weight(b, Pow2(left - 1)));
      Coded([Adaptive(t[node], b)] + tail.ds, tail.tree)
  }

  function Weight(b: bit, p: nat): nat {
    if b == 0 then 0 else p
  }

  lemma Path(node: nat, b: bit, p: nat, v: nat)
    ensures (2 * node + b) * p + v == node * (2 * p) + Weight(b, p) + v
  {
    if b == 1 {
      assert (2 * node + 1) * p == 2 * node * p + p;
    }
  }

  lemma {:induction false} DecodeAbove(t: Tree, node: nat, left: nat, r: Registers)
    requires Fits(|t|, node, left) && r.range >= TOP && DecodeFrom(t, node, left, r).Ok?
    ensures var v := DecodeFrom(t, node, left, r).value.value;
            node * Pow2(left) <= v < node * Pow2(left) + Pow2(left)
    decreases left
  {
    hide BitStep;
    if left > 0 {
      FitsStep(|t|, node, left);
      var (b, n) := BitStep(r, t[node]).value;
      DecodeAbove(t[node := Adapt(t[node], b)], 2 * node + b, left - 1, n);
      Path(node, b, Pow2(left - 1), 0);
    }
  }

  /** One step of the encoder and of the decoder. */
  lemma TreeUnfolds(t: Tree, node: nat, left: nat, v: nat, r: Registers)
    requires Fits(|t|, node, left) && v < Pow2(left) && left > 0 && r.range >= TOP
    ensures node < |t|
    ensures var b: bit := if v >= Pow2(left - 1) then 1 else 0;
            var rest, t' := v - Weight(b, Pow2(left - 1)), t[node := Adapt(t[node], b)];
            && 0 <= rest < Pow2(left - 1) && Fits(|t'|, 2 * node + b, left - 1)
            && (2 * node + b) * Pow2(left - 1) + rest == node * Pow2(left) + v
            && (var tail := EncodeFrom(t', 2 * node + b, left - 1, rest);
                EncodeFrom(t, node, left, v) == Coded([Adaptive(t[node], b)] + tail.ds, tail.tree))
            && var x, d := BitStep(r, t[node]), DecodeFrom(t, node, left, r);
               && (x.Err? ==> d.Err?)
               && (x.Ok? && x.value.0 == b ==> d == DecodeFrom(t', 2 * node + b, left - 1, x.value.1))
  {
    hide BitStep, Adapt, Fits;
    FitsStep(|t|, node, left);
    var b: bit := if v >= Pow2(left - 1) then 1 else 0;
    Path(node, b, Pow2(left - 1), v - Weight(b, Pow2(left - 1)));
  }

  /** Decoding is the exact inverse of encoding: a value decodes from precisely the bits that encode it. */
  lemma {:induction false} TreeInverse(t: Tree, node: nat, left: nat, v: nat, r: Registers)
    requires Fits(|t|, node, left) && v < Pow2(left) && r.range >= TOP
    ensures var c, d := EncodeFrom(t, node, left, v), DecodeFrom(t, node, left, r);
            && (Replay(r, c.ds).Some? <==> d.Ok? && d.value.value == node * Pow2(left) + v)
            && (Replay(r, c.ds).Some? ==> d.value.tree == c.tree && d.value.next == Replay(r, c.ds).value)
    decreases left
  {
    hide BitStep, Adapt, Fits;
    if left > 0 {
      TreeUnfolds(t, node, left, v, r);
      var b: bit := if v >= Pow2(left - 1) then 1 else 0;
      var rest, t' := v - Weight(b, Pow2(left - 1)), t[node := Adapt(t[node], b)];
      ReplayBit(r, t[node], b, EncodeFrom(t', 2 * node + b, left - 1, rest).ds);
      hide Pow2, EncodeFrom, DecodeFrom, Replay, Weight;
      var x := BitStep(r, t[node]);
      if x.Ok? && x.value.0 == b {
        TreeInverse(t', 2 * node + b, left - 1, rest, x.value.1);
      } else if x.Ok? {
        WrongTurn(t, node, left, v, r, b);
      }
    }
  }

  lemma WrongTurn(t: Tree, node: nat, left: nat, v: nat, r: Registers, b: bit)
    requires Fits(|t|, node, left) && left > 0 && v < Pow2(left) && r.range >= TOP
    requires b == if v >= Pow2(left - 1) then 1 else 0
    requires node < |t| && BitStep(r, t[node]).Ok? && BitStep(r, t[node]).value.0 != b
    ensures var d := DecodeFrom(t, node, left, r); d.Ok? ==> d.value.value != node * Pow2(left) + v
  {
    hide BitStep, Adapt;
    FitsStep(|t|, node, left);
    var (b', n) := BitStep(r, t[node]).value;
    var t' := t[node := Adapt(t[node], b')];
    var p := Pow2(left - 1);
    if DecodeFrom(t', 2 * node + b', left - 1, n).Ok? {
      DecodeAbove(t', 2 * node + b', left - 1, n);
      Path(node, b', p, 0);
    }
  }

  /** The least significant bit first. */
  function DecodeReverseFrom(t: Tree, node: nat, left: nat, r: Registers): (d: Result<Decoded>)
    requires Fits(|t|, node, left) && r.range >= TOP
    ensures d.Ok? ==> d.value.next.range >= TOP && |d.value.tree| == |t| && d.value.value < Pow2(left)
    decreases left
  {
    if left == 0 then Ok(Decoded(0, t, r))
    else
      FitsStep(|t|, node, left);
      var (b, n) :- BitStep(r, t[node]);
      var tail :- DecodeReverseFrom(t[node := Adapt(t[node], b)], 2 * node + b, left - 1, n);
      Ok(tail.(value := b + 2 * tail.value))
  }

  function EncodeReverseFrom(t: Tree, node: nat, left: nat, v: nat): (c: Coded)
    requires Fits(|t|, node, left) && v < Pow2(left)
    ensures |c.tree| == |t|
    decreases left
  {
    if left == 0 then Coded([], t)
    else
      FitsStep(|t|, node, left);
      var tail := EncodeReverseFrom(t[node := Adapt(t[node], v % 2)], 2 * node + v % 2, left - 1, v / 2);
      Coded([Adaptive(t[node], v % 2)] + tail.ds, tail.tree)
  }

  /** One step of the reverse encoder and of the reverse decoder. */
  lemma ReverseUnfolds(t: Tree, node: nat, left: nat, v: nat, r: Registers)
    requires Fits(|t|, node, left) && v < Pow2(left) && left > 0 && r.range >= TOP
    ensures node < |t| && Fits(|t|, 2 * node + v % 2, left - 1) && v / 2 < Pow2(left - 1)
    ensures var tail := EncodeReverseFrom(t[node := Adapt(t[node], v % 2)], 2 * node + v % 2, left - 1, v / 2);
            EncodeReverseFrom(t, node, left, v) == Coded([Adaptive(t[node], v % 2)] + tail.ds, tail.tree)
    ensures var d, x := DecodeReverseFrom(t, node, left, r), BitStep(r, t[node]);
            && (d.Ok? && d.value.value == v ==> x.Ok? && x.value.0 == v % 2)
            && (x.Ok? && x.value.0 == v % 2 ==>
                  var t' := t[node := Adapt(t[node], v % 2)];
                  var tail := DecodeReverseFrom(t', 2 * node + v % 2, left - 1, x.value.1);
                  d == if tail.Ok? then Ok(tail.value.(value := v % 2 + 2 * tail.value.value)) else tail)
  {
    hide BitStep, Adapt, Fits;
    FitsStep(|t|, node, left);
  }

  lemma {:induction false} ReverseInverse(t: Tree, node: nat, left: nat, v: nat, r: Registers)
    requires Fits(|t|, node, left) && v < Pow2(left) && r.range >= TOP
    ensures var c, d := EncodeReverseFrom(t, node, left, v), DecodeReverseFrom(t, node, left, r);
            && (Replay(r, c.ds).Some? <==> d.Ok? && d.value.value == v)
            && (Replay(r, c.ds).Some? ==> d.value.tree == c.tree && d.value.next == Replay(r, c.ds).value)
    decreases left
  {
    hide BitStep, Adapt, Fits;
    if left > 0 {
      ReverseUnfolds(t, node, left, v, r);
      hide Pow2, EncodeReverseFrom, DecodeReverseFrom, Replay;
      var b: bit := v % 2;
      var t' := t[node := Adapt(t[node], b)];
      ReplayBit(r, t[node], b, EncodeReverseFrom(t', 2 * node + b, left - 1, v / 2).ds);
      var x := BitStep(r, t[node]);
      if x.Ok? && x.value.0 == b {
        ReverseInverse(t', 2 * node + b, left - 1, v / 2, x.value.1);
      }
    }
  }

  /** Bits without a probability, the most significant first. */
  function DecodeDirectBits(left: nat, r: Registers): (d: Result<(nat, Registers)>)
    requires r.range >= TOP
    ensures d.Ok? ==> d.value.1.range >= TOP && d.value.0 < Pow2(left)
    decreases left
  {
    if left == 0 then Ok((0, r))
    else
      var (b, n) :- DirectStep(r);
      var (v, end) :- DecodeDirectBits(left - 1, n);
      Ok((Weight(b, Pow2(left - 1)) + v, end))
  }

  function EncodeDirectBits(left: nat, v: nat): seq<Decision>
    requires v < Pow2(left)
    decreases left
  {
    if left == 0 then []
    else
      var b: bit := if v >= Pow2(left - 1) then 1 else 0;
      [Direct(b)] + EncodeDirectBits(left - 1, v - Weight(b, Pow2(left - 1)))
  }

  lemma {:induction false} DirectInverse(left: nat, v: nat, r: Registers)
    requires v < Pow2(left) && r.range >= TOP
    ensures var ds, d := EncodeDirectBits(left, v), DecodeDirectBits(left, r);
            && (Replay(r, ds).Some? <==> d.Ok? && d.value.0 == v)
            && (Replay(r, ds).Some? ==> d.value.1 == Replay(r, ds).value)
    decreases left
  {
    hide DirectStep;
    if left > 0 {
      var b: bit := if v >= Pow2(left - 1) then 1 else 0;
      var ds := EncodeDirectBits(left, v);
      assert ds[0] == Direct(b) && ds[1..] == EncodeDirectBits(left - 1, v - Weight(b, Pow2(left - 1)));
      var x := DirectStep(r);
      if x.Ok? && x.value.0 == b {
        DirectInverse(left - 1, v - Weight(b, Pow2(left - 1)), x.value.1);
      }
    }
  }

  // ---- the loops of the program ----

  method DecodeTree(range: RangeDecoder, t: Tree, bits: nat) returns (r: Result<nat>, t': Tree)
    requires range.Valid() && |t| == Pow2(bits)
    modifies range
    ensures |t'| == |t|
    ensures Fits(|t|, 1, bits)
    ensures var d := DecodeFrom(t, 1, bits, old(range.View()));
            && (r.Ok? <==> d.Ok?)
            && (r.Ok? ==> range.Valid() && d.value == Decoded(r.value + Pow2(bits), t', range.View()))
    ensures r.Ok? ==> r.value < Pow2(bits)
  {
    hide BitStep;
    FitsRoot(bits);
    var node: nat := 1;
    t' := t;
    for k := 0 to bits
      invariant range.Valid() && Fits(|t|, node, bits - k) && |t'| == |t|
      invariant DecodeFrom(t', node, bits - k, range.View()) == DecodeFrom(t, 1, bits, old(range.View()))
    {
      FitsStep(|t|, node, bits - k);
      var b, p := range.DecodeBit(t'[node]);
      if b.Err? {
        return Err(b.error), t';
      }
      t' := t'[node := p];
      node := 2 * node + b.value;
    }
    DecodeAbove(t, 1, bits, old(range.View()));
    r := Ok(node - Pow2(bits));
  }

  /** `d` is `e` with its value placed above the bits already read. */
  ghost predicate Above(d: Result<Decoded>, e: Result<Decoded>, value: nat, weight: nat) {
    && (d.Ok? <==> e.Ok?)
    && (d.Ok? ==> d.value == e.value.(value := value + weight * e.value.value))
  }

  lemma AboveStep(d: Result<Decoded>, t: Tree, node: nat, left: nat, r: Registers, value: nat, weight: nat)
    requires Fits(|t|, node, left) && left > 0 && r.range >= TOP
    requires Above(d, DecodeReverseFrom(t, node, left, r), value, weight)
    ensures node < |t|
    ensures BitStep(r, t[node]).Err? ==> d.Err?
    ensures BitStep(r, t[node]).Ok? ==>
              var (b, n) := BitStep(r, t[node]).value;
              && Fits(|t|, 2 * node + b, left - 1)
              && Above(d, DecodeReverseFrom(t[node := Adapt(t[node], b)], 2 * node + b, left - 1, n),
                       value + Weight(b, weight), 2 * weight)
  {
    hide BitStep, Adapt, Fits, Pow2;
    FitsStep(|t|, node, left);
    if BitStep(r, t[node]).Ok? {
      var (b, n) := BitStep(r, t[node]).value;
      var e := DecodeReverseFrom(t[node := Adapt(t[node], b)], 2 * node + b, left - 1, n);
      if e.Ok? {
        NextWeight(value, weight, b, e.value.value);
      }
    }
  }

  lemma NextWeight(value: nat, weight: nat, b: bit, v: nat)
    ensures value + weight * (b + 2 * v) == value + Weight(b, weight) + 2 * weight * v
  {
    assert weight * (b + 2 * v) == weight * b + weight * (2 * v);
  }

  method DecodeReverse(range: RangeDecoder, t: Tree, bits: nat) returns (r: Result<nat>, t': Tree)
    requires range.Valid() && |t| == Pow2(bits)
    modifies range
    ensures |t'| == |t|
    ensures Fits(|t|, 1, bits)
    ensures var d := DecodeReverseFrom(t, 1, bits, old(range.View()));
            && (r.Ok? <==> d.Ok?)
            && (r.Ok? ==> range.Valid() && d.value == Decoded(r.value, t', range.View()))
  {
    hide BitStep, Adapt;
    FitsRoot(bits);
    var node: nat, value: nat, weight: nat := 1, 0, 1;
    t' := t;
    for k := 0 to bits
      invariant range.Valid() && Fits(|t|, node, bits - k) && |t'| == |t|
      invariant Above(DecodeReverseFrom(t, 1, bits, old(range.View())),
                      DecodeReverseFrom(t', node, bits - k, range.View()), value, weight)
    {
      AboveStep(DecodeReverseFrom(t, 1, bits, old(range.View())), t', node, bits - k, range.View(), value, weight);
      var b, p := range.DecodeBit(t'[node]);
      if b.Err? {
        return Err(b.error), t';
      }
      t' := t'[node := p];
      value := value + Weight(b.value, weight);
      node := 2 * node + b.value;
      weight := 2 * weight;
    }
    r := Ok(value);
  }

  method DecodeDirect(range: RangeDecoder, bits: nat) returns (r: Result<nat>)
    requires range.Valid()
    modifies range
    ensures var d := DecodeDirectBits(bits, old(range.View()));
            && (r.Ok? <==> d.Ok?)
            && (r.Ok? ==> range.Valid() && d.value == (r.value, range.View()))
  {
    hide DirectStep;
    var direct: nat := 0;
    for k := 0 to bits
      invariant range.Valid()
      invariant var d, e := DecodeDirectBits(bits, old(range.View())), DecodeDirectBits(bits - k, range.View());
                && (d.Ok? <==> e.Ok?)
                && (d.Ok? ==> d.value == (direct * Pow2(bits - k) + e.value.0, e.value.1))
    {
      var b := range.DecodeDirectBit();
      if b.Err? {
        return Err(b.error);
      }
      Path(direct, b.value, Pow2(bits - k - 1), 0);
      direct := 2 * direct + b.value;
    }
    r := Ok(direct);
  }
}
