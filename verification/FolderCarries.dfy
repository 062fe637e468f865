/** What a folder can carry: if every coder can be inverted, so can the graph, whatever its shape. */
module FolderCarries {
  import opened Prelude
  import opened GraphOrder
  import opened GraphValidation
  import opened FolderExecution
  import opened OutputCaps
  import opened Extraction
  import opened FolderDecoding
  import opened CoderRoundTrips
  import opened PackedStreams

  /** Inputs from which a coder computes an output. */
  type Encoder = (nat, Bytes) -> seq<Bytes>

  ghost predicate Shaped(f: Folder, e: Encoder) {
    forall i, s | 0 <= i < |f.coders| :: |e(i, s)| == f.coders[i].inputCount
  }

  /** Where the output of a coder other than the root goes: a port of a coder that runs later. */
  lemma Consumer(f: Folder, owners: seq<nat>, i: nat)
    requires Good(f, owners) && i < |f.coders| && i != f.root
    ensures var k := FindOutput(f.pairs, i);
            && k.Some? && f.pairs[k.value].input < |owners|
            && var p := f.pairs[k.value].input;
               && owners[p] < |f.coders| && Rank(f, owners, i) < Rank(f, owners, owners[p])
               && 0 <= p - f.coders[owners[p]].inputStart < f.coders[owners[p]].inputCount
  {
    hide IsOrder;
    var k := FindOutput(f.pairs, i);
    FeederFirst(f, owners, k.value);
  }

  /** What coder `i` has to put out for the root to put out `s`. */
  ghost function Wanted(f: Folder, owners: seq<nat>, e: Encoder, s: Bytes, i: nat): Bytes
    requires Good(f, owners) && Shaped(f, e) && i < |f.coders|
    decreases |f.coders| - Rank(f, owners, i), 0
  {
    hide Good;
    if i == f.root then s
    else
      Consumer(f, owners, i);
      Arriving(f, owners, e, s, f.pairs[FindOutput(f.pairs, i).value].input)
  }

  /** What has to arrive at a port. */
  ghost function Arriving(f: Folder, owners: seq<nat>, e: Encoder, s: Bytes, p: nat): Bytes
    requires Good(f, owners) && Shaped(f, e) && p < |owners| && owners[p] < |f.coders|
    requires 0 <= p - f.coders[owners[p]].inputStart < f.coders[owners[p]].inputCount
    decreases |f.coders| - Rank(f, owners, owners[p]), 1
  {
    hide Good;
    e(owners[p], Wanted(f, owners, e, s, owners[p]))[p - f.coders[owners[p]].inputStart]
  }

  /** The packed streams that make it arrive. */
  ghost function Packing(f: Folder, owners: seq<nat>, e: Encoder, s: Bytes): (packs: seq<Bytes>)
    requires Good(f, owners) && Shaped(f, e)
    ensures |packs| == |f.packed|
  {
    seq(|f.packed|, k requires 0 <= k < |f.packed| =>
      PackedPort(f, owners, k); Arriving(f, owners, e, s, f.packed[k]))
  }

  lemma PackedPort(f: Folder, owners: seq<nat>, k: nat)
    requires Good(f, owners) && k < |f.packed|
    ensures f.packed[k] < |owners| && owners[f.packed[k]] < |f.coders|
    ensures var p := f.packed[k];
            0 <= p - f.coders[owners[p]].inputStart < f.coders[owners[p]].inputCount
  {
    hide IsOrder;
  }

  /** The output that feeds a port goes there and nowhere else. */
  lemma FedBy(f: Folder, owners: seq<nat>, p: nat)
    requires Good(f, owners) && p < |owners| && SourceOf(f, owners, p).FromCoder?
    ensures var o := SourceOf(f, owners, p).coder;
            o != f.root && FindOutput(f.pairs, o).Some? && f.pairs[FindOutput(f.pairs, o).value].input == p
  {
    hide IsOrder;
    var k := FindPair(f.pairs, p).value;
    var o := f.pairs[k].output;
    assert OutputBound(f.pairs, o);
    var j := FindOutput(f.pairs, o).value;
    assert f.pairs[j].output == f.pairs[k].output;
  }

  /** A coder whose inputs all arrive as wanted puts out what is wanted. */
  lemma {:induction false} Delivers(f: Folder, owners: seq<nat>, e: Encoder, s: Bytes, d: Decoder, i: nat)
    requires Good(f, owners) && Shaped(f, e) && i < |f.coders|
    requires forall j | 0 <= j < |f.coders| ::
               d(j, e(j, Wanted(f, owners, e, s, j))) == Ok(Wanted(f, owners, e, s, j))
    ensures Eval(f, owners, Packing(f, owners, e, s), d, i) == Ok(Wanted(f, owners, e, s, i))
    decreases Rank(f, owners, i), f.coders[i].inputCount + 1
  {
    hide Good, Packing, EvalInputs, Wanted;
    InputsArrive(f, owners, e, s, d, i, f.coders[i].inputCount);
    var all := e(i, Wanted(f, owners, e, s, i));
    assert all[..|all|] == all;
  }

  lemma {:induction false} InputsArrive(f: Folder, owners: seq<nat>, e: Encoder, s: Bytes, d: Decoder, i: nat, k: nat)
    requires Good(f, owners) && Shaped(f, e) && i < |f.coders| && k <= f.coders[i].inputCount
    requires forall j | 0 <= j < |f.coders| ::
               d(j, e(j, Wanted(f, owners, e, s, j))) == Ok(Wanted(f, owners, e, s, j))
    ensures EvalInputs(f, owners, Packing(f, owners, e, s), d, i, k) == Ok(e(i, Wanted(f, owners, e, s, i))[..k])
    decreases Rank(f, owners, i), k
  {
    hide Good, Packing, Eval, Wanted;
    if k > 0 {
      InputsArrive(f, owners, e, s, d, i, k - 1);
      var p, all := f.coders[i].inputStart + k - 1, e(i, Wanted(f, owners, e, s, i));
      OwnerOf(f, owners, i, p);
      PortArrives(f, owners, e, s, d, p);
      assert all[..k] == all[..k - 1] + [all[k - 1]];
    }
  }

  lemma OwnerOf(f: Folder, owners: seq<nat>, i: nat, p: nat)
    requires Good(f, owners) && i < |f.coders|
    requires f.coders[i].inputStart <= p < f.coders[i].inputStart + f.coders[i].inputCount
    ensures p < |owners| && owners[p] == i
  {
    PortOwner(f.coders, owners, i, p);
  }

  lemma {:induction false} PortArrives(f: Folder, owners: seq<nat>, e: Encoder, s: Bytes, d: Decoder, p: nat)
    requires Good(f, owners) && Shaped(f, e) && p < |owners| && owners[p] < |f.coders|
    requires 0 <= p - f.coders[owners[p]].inputStart < f.coders[owners[p]].inputCount
    requires forall j | 0 <= j < |f.coders| ::
               d(j, e(j, Wanted(f, owners, e, s, j))) == Ok(Wanted(f, owners, e, s, j))
    ensures EvalPort(f, owners, Packing(f, owners, e, s), d, p) == Ok(Arriving(f, owners, e, s, p))
    decreases Rank(f, owners, owners[p]), 0
  {
    hide Good, Eval, Arriving;
    match SourceOf(f, owners, p)
    case FromPack(_) =>
    case FromCoder(o) =>
      FedBy(f, owners, p);
      Delivers(f, owners, e, s, d, o);
  }

  // ---- with the coders of this model ----

  /** Coders that can put out every byte string. */
  ghost predicate Supported(x: FolderDecoding.Source, settings: Settings)
    requires |x.specs| == |x.f.coders|
  {
    && AllRegistered(x)
    && forall i | 0 <= i < |x.specs| :: !IsForeign(x.specs[i].method_) && Encodable(x.specs[i], settings)
  }

  /** A coder that declares the right size, if it declares one. */
  function Resized(c: Spec, size: nat): Spec {
    c.(expected := if c.expected.Some? then Some(size) else None)
  }

  /** Whether the inputs make the coder put out `s` under a limit of just that size. */
  ghost predicate Codes(x: FolderDecoding.Source, settings: Settings, foreign: ForeignDecoder, i: nat, s: Bytes,
                        inputs: seq<Bytes>)
    requires i < |x.specs|
  {
    DecodeCoder(i, Resized(x.specs[i], |s|), inputs, |s|, settings, foreign) == Ok(s)
  }

  ghost function Coded(x: FolderDecoding.Source, settings: Settings, foreign: ForeignDecoder, i: nat, s: Bytes)
    : (inputs: seq<Bytes>)
    requires i < |x.specs| == |x.f.coders| && Supported(x, settings)
    ensures |inputs| == x.f.coders[i].inputCount && Codes(x, settings, foreign, i, s, inputs)
  {
    CodedExists(x, settings, foreign, i, s);
    var inputs: seq<Bytes> :| |inputs| == x.f.coders[i].inputCount && Codes(x, settings, foreign, i, s, inputs);
    inputs
  }

  lemma CodedExists(x: FolderDecoding.Source, settings: Settings, foreign: ForeignDecoder, i: nat, s: Bytes)
    requires i < |x.specs| == |x.f.coders| && Supported(x, settings)
    ensures exists inputs: seq<Bytes> ::
              |inputs| == x.f.coders[i].inputCount && Codes(x, settings, foreign, i, s, inputs)
  {
    hide PropertiesFit, DecodeCoder;
    var c, n := Resized(x.specs[i], |s|), x.f.coders[i].inputCount;
    assert Registered(x.specs[i], n, x.f.coders[i].outputCount);
    assert Encodable(c, settings);
    hide Encodable;
    var inputs := EveryOutput(i, c, n, s, |s|, settings, foreign);
    assert Codes(x, settings, foreign, i, s, inputs);
  }

  ghost function CodedBy(x: FolderDecoding.Source, settings: Settings, foreign: ForeignDecoder): Encoder
    requires |x.specs| == |x.f.coders| && Supported(x, settings)
  {
    (i: nat, s: Bytes) => if i < |x.specs| then Coded(x, settings, foreign, i, s) else []
  }

  lemma CodedShapes(x: FolderDecoding.Source, settings: Settings, foreign: ForeignDecoder)
    requires |x.specs| == |x.f.coders| && Supported(x, settings)
    ensures Shaped(x.f, CodedBy(x, settings, foreign))
  {
    hide Codes, Supported;
  }

  /** A limit that every stream inside the folder keeps. */
  ghost function Largest(f: Folder, owners: seq<nat>, e: Encoder, s: Bytes, n: nat): (m: nat)
    requires Good(f, owners) && Shaped(f, e) && n <= |f.coders|
    ensures forall i | 0 <= i < n :: |Wanted(f, owners, e, s, i)| <= m
  {
    if n == 0 then 0 else Max(Largest(f, owners, e, s, n - 1), |Wanted(f, owners, e, s, n - 1)|)
  }

  /** The folder with these sizes where it declares sizes. */
  function WithSizes(x: FolderDecoding.Source, sizes: seq<nat>): (y: FolderDecoding.Source)
    requires |sizes| == |x.specs|
    ensures y.f == x.f && y.crc == x.crc && |y.specs| == |x.specs|
    ensures forall i | 0 <= i < |x.specs| :: y.specs[i] == Resized(x.specs[i], sizes[i])
  {
    x.(specs := seq(|x.specs|, i requires 0 <= i < |x.specs| => Resized(x.specs[i], sizes[i])))
  }

  /** The sizes of the streams in it. */
  ghost function Sizes(f: Folder, owners: seq<nat>, e: Encoder, s: Bytes): (sizes: seq<nat>)
    requires Good(f, owners) && Shaped(f, e)
    ensures |sizes| == |f.coders| && forall i | 0 <= i < |sizes| :: sizes[i] == |Wanted(f, owners, e, s, i)|
  {
    seq(|f.coders|, i requires 0 <= i < |f.coders| => |Wanted(f, owners, e, s, i)|)
  }

  /** The total limit is no part of what a single coder does. */
  lemma TotalAside(i: nat, c: Spec, inputs: seq<Bytes>, maximum: nat, settings: Settings, total: nat,
                   foreign: ForeignDecoder)
    ensures DecodeCoder(i, c, inputs, maximum, settings.(maxTotal := total), foreign)
         == DecodeCoder(i, c, inputs, maximum, settings, foreign)
  {
    hide Filtered;
  }

  /** A coder puts out what is wanted of it. */
  lemma CoderDelivers(x: FolderDecoding.Source, y: FolderDecoding.Source, settings: Settings, foreign: ForeignDecoder,
                      cap: nat, total: nat, i: nat, s: Bytes)
    requires i < |x.specs| == |x.f.coders| == |y.specs| && y.f == x.f && Supported(x, settings) && ForeignObeys(foreign)
    requires y.specs[i] == Resized(x.specs[i], |s|) && |s| <= (if i == x.f.root then cap else total)
    ensures Coders(y, cap, settings.(maxTotal := total), foreign)(i, Coded(x, settings, foreign, i, s)) == Ok(s)
  {
    hide DecodeCoder, Supported, Coded, Resized;
    var inputs := Coded(x, settings, foreign, i, s);
    var maximum := if i == x.f.root then cap else total;
    CoderObeys(i, y.specs[i], inputs, |s|, maximum, settings, foreign);
    TotalAside(i, y.specs[i], inputs, maximum, settings, total, foreign);
  }

  lemma RootWanted(f: Folder, owners: seq<nat>, e: Encoder, s: Bytes)
    requires Good(f, owners) && Shaped(f, e) && f.root < |f.coders|
    ensures Wanted(f, owners, e, s, f.root) == s
  {
    hide Good;
  }

  /** The coder tree evaluates to the wanted root output. */
  lemma GraphDelivers(x: FolderDecoding.Source, y: FolderDecoding.Source, owners: seq<nat>, s: Bytes, cap: nat,
                      settings: Settings, total: nat, foreign: ForeignDecoder)
    requires |x.specs| == |x.f.coders| && Good(x.f, owners) && x.f.root < |x.f.coders|
    requires Supported(x, settings) && ForeignObeys(foreign) && |s| <= cap
    requires Shaped(x.f, CodedBy(x, settings, foreign))
    requires y == WithSizes(x, Sizes(x.f, owners, CodedBy(x, settings, foreign), s))
    requires total >= Largest(x.f, owners, CodedBy(x, settings, foreign), s, |x.f.coders|)
    ensures var packs := Packing(x.f, owners, CodedBy(x, settings, foreign), s);
            Eval(x.f, owners, packs, Coders(y, cap, settings.(maxTotal := total), foreign), x.f.root) == Ok(s)
  {
    hide Good, Supported, Coders, Coded, Wanted, Packing, Eval, Largest, ForeignObeys, WithSizes, Sizes, Resized;
    var e, d := CodedBy(x, settings, foreign), Coders(y, cap, settings.(maxTotal := total), foreign);
    RootWanted(x.f, owners, e, s);
    forall j | 0 <= j < |x.f.coders|
      ensures d(j, e(j, Wanted(x.f, owners, e, s, j))) == Ok(Wanted(x.f, owners, e, s, j))
    {
      CoderDelivers(x, y, settings, foreign, cap, total, j, Wanted(x.f, owners, e, s, j));
    }
    Delivers(x.f, owners, e, s, d, x.f.root);
  }

  lemma GraphIs(raw: RawFolder, x: FolderDecoding.Source, y: FolderDecoding.Source, packs: seq<Bytes>, s: Bytes,
                cap: nat, settings: Settings, foreign: ForeignDecoder)
    requires Usable(raw, x) && SingleOutputs(x.f) && |packs| == |x.f.packed|
    requires y.f == x.f && y.crc == x.crc && |y.specs| == |x.specs|
    requires Good(x.f, Owners(Inputs(raw.coders))) && x.f.root < |x.f.coders|
    requires Eval(x.f, Owners(Inputs(raw.coders)), packs, Coders(y, cap, settings, foreign), x.f.root) == Ok(s)
    ensures Usable(raw, y)
    ensures GraphOutput(raw, y, packs, cap, settings, foreign) == Ok(Decoded(s, !Matches(x.crc, s)))
  {
    hide FolderExecution.Validated, Good, Coders, Matches, Eval;
  }

  /** Any graph that validation accepts, made of any coders of this model, carries any bytes: with the right sizes where
      sizes are declared, there are packed streams from which the executor returns exactly them, once the total limit
      leaves room for the streams in between. */
  lemma EveryGraphCarries(raw: RawFolder, x: FolderDecoding.Source, s: Bytes, cap: nat, settings: Settings,
                          foreign: ForeignDecoder)
    returns (packs: seq<Bytes>, sizes: seq<nat>, limit: nat)
    requires Usable(raw, x) && Supported(x, settings) && SingleOutputs(x.f) && ForeignObeys(foreign) && |s| <= cap
    ensures |packs| == |x.f.packed| && |sizes| == |x.specs| && Usable(raw, WithSizes(x, sizes))
    ensures forall total: nat | total >= limit ::
              GraphOutput(raw, WithSizes(x, sizes), packs, cap, settings.(maxTotal := total), foreign)
              == Ok(Decoded(s, !Matches(x.crc, s)))
  {
    var owners := Owners(Inputs(raw.coders));
    ValidatedIsGood(raw, x.f);
    RootInRange(x.f, owners);
    CodedShapes(x, settings, foreign);
    var e := CodedBy(x, settings, foreign);
    hide FolderExecution.Validated, Good, Supported, Coders, Matches, CodedBy, Wanted, Packing, Eval, Shaped, Largest,
         Resized, WithSizes, Sizes, GraphOutput, ForeignObeys, SingleOutputs;
    limit := Largest(x.f, owners, e, s, |x.f.coders|);
    packs, sizes := Packing(x.f, owners, e, s), Sizes(x.f, owners, e, s);
    forall total: nat | total >= limit
      ensures Usable(raw, WithSizes(x, sizes))
      ensures GraphOutput(raw, WithSizes(x, sizes), packs, cap, settings.(maxTotal := total), foreign)
           == Ok(Decoded(s, !Matches(x.crc, s)))
    {
      GraphDelivers(x, WithSizes(x, sizes), owners, s, cap, settings, total, foreign);
      GraphIs(raw, x, WithSizes(x, sizes), packs, s, cap, settings.(maxTotal := total), foreign);
    }
  }
}
