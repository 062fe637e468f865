/** `decode_folder` with its decoders in place: what its output cap does. */
module FolderDecoding {
  import opened Prelude
  import opened FolderExecution
  import opened GraphValidation
  import opened OutputCaps
  import opened Extraction
  import opened PackedStreams
  import N = NaturalExtraction
  import X = ExtractionExact
  import L = LzmaStream
  import Z = Lzma2
  import D = Deflate64Stream
  import J = Bcj2Filter
  import Delta = DeltaFilter
  import F = BranchFilters
  import Thumb = ThumbFilter
  import Ia64 = Ia64Filter

  /** The methods the program knows. */
  datatype Method =
    | Copy | Lzma | Lzma2 | Ppmd | Delta | Bcj | Ppc | Arm | Arm64 | Sparc | Ia64 | ArmThumb | Riscv | Bcj2
    | Swap2 | Swap4 | Deflate | Deflate64 | Bzip2 | Brotli | Lz4 | Zstd | Aes
    | Unknown

  /** Those whose decoders are not part of this model. */
  predicate IsForeign(m: Method) {
    || m.Ppmd? || m.Bcj? || m.Riscv? || m.Swap2? || m.Swap4? || m.Deflate?
    || m.Bzip2? || m.Brotli? || m.Lz4? || m.Zstd? || m.Aes? || m.Unknown?
  }

  /** A coder with its properties and the size its output is declared to have. */
  datatype Spec = Spec(method_: Method, properties: seq<byte>, expected: Option<nat>)

  datatype Settings = Settings(maxTotal: nat, maxDictionary: nat)

  /** What other coders compute, from the coder's index, its inputs and its output limit. */
  type ForeignDecoder = (nat, seq<Bytes>, nat) -> Result<Bytes>

  predicate IsFilter(m: Method) {
    m.Delta? || m.Ppc? || m.Arm? || m.Arm64? || m.Sparc? || m.Ia64? || m.ArmThumb?
  }

  // ---- registration ----

  /** `parse_ppmd_properties`: an order from 2 to 64, at least 2 KiB of memory, perhaps two zero bytes behind. */
  predicate PpmdFits(p: seq<byte>) {
    && (|p| == 5 || (|p| == 7 && p[5] == 0 && p[6] == 0))
    && 2 <= p[0] <= 64 && LittleEndian(p[1..5]) >= 0x800
  }

  predicate PropertiesFit(m: Method, p: seq<byte>) {
    match m
    case Copy | Bcj2 | Swap2 | Swap4 | Deflate | Deflate64 | Bzip2 => p == []
    case Lzma => |p| == 5
    case Lzma2 | Delta => |p| == 1
    case Ppmd => PpmdFits(p)
    case Bcj | Ppc | Arm | Arm64 | Sparc | Ia64 | ArmThumb | Riscv => |p| == 0 || |p| == 4
    case Brotli | Lz4 | Zstd | Aes => true
    case Unknown => false
  }

  /** `validate_coder_registration`: one output, as many inputs as the method takes, and its kind of properties. */
  predicate Registered(c: Spec, inputs: nat, outputs: nat) {
    && outputs == 1
    && inputs == (if c.method_.Bcj2? then 4 else 1)
    && PropertiesFit(c.method_, c.properties)
  }

  predicate PermitsUnknownOutput(m: Method) {
    !m.Ppmd? && !m.Bzip2? && !m.Brotli? && !m.Lz4? && !m.Zstd? && !m.Aes? && !m.Unknown?
  }

  /** The size-preserving filters. */
  function Filtered(m: Method, properties: seq<byte>, input: Bytes): (x: Result<Bytes>)
    requires IsFilter(m)
    ensures x.Ok? ==> |x.value| == |input|
  {
    if m == Delta then
      if |properties| != 1 then Err(Format) else Ok(Delta.Summed(input, properties[0] as int + 1))
    else if m == ArmThumb && |input| < 4 then Ok(input)
    else
      var start :- F.StartingPosition(properties);
      if m == Ppc then Ok(F.Scan(F.PpcStep, start, input, true, false))
      else if m == Sparc then Ok(F.Scan(F.SparcStep, start, input, true, false))
      else if m == Arm then Ok(F.Scan(F.ArmStep, F.Next(F.Next(start)), input, false, false))
      else if m == Arm64 then Ok(F.Scan(F.Arm64Step, start, input, false, false))
      else if m == ArmThumb then Ok(Thumb.Scan(start, 0, input, false))
      else Ok(Ia64.Scan(start, 0, input, false))
  }

  /** The branches of `decode_coder`, each with its own way to obey the limit. */
  function Dispatch(i: nat, c: Spec, inputs: seq<Bytes>, maximum: nat, settings: Settings, foreign: ForeignDecoder)
    : Result<Bytes>
  {
    if IsForeign(c.method_) then foreign(i, inputs, maximum)
    else if c.method_ == Bcj2 then J.DecodeBcj2(inputs, c.properties, c.expected, maximum)
    else if |inputs| != 1 then Err(Format)
    else Single(c, inputs[0], maximum, settings)
  }

  function Single(c: Spec, input: Bytes, maximum: nat, settings: Settings): Result<Bytes>
    requires !IsForeign(c.method_) && !c.method_.Bcj2?
  {
    if c.method_ == Lzma then L.DecodeLzma(input, c.properties, c.expected, maximum)
    else if c.method_ == Lzma2 then Z.DecodeLzma2(input, c.properties, c.expected, maximum)
    else if c.method_ == Deflate64 then D.DecodeDeflate64(input, c.expected, maximum, settings.maxDictionary)
    else if c.method_ == Copy && c.properties != [] then Err(Format)
    else if |input| > maximum then Err(LimitExceeded)
    else if c.method_ == Copy then Ok(input)
    else Filtered(c.method_, c.properties, input)
  }

  /** `decode_coder`: some methods need a declared size; it and the limit are checked once more on the output. */
  function DecodeCoder(i: nat, c: Spec, inputs: seq<Bytes>, maximum: nat, settings: Settings, foreign: ForeignDecoder)
    : Result<Bytes>
  {
    if c.expected.None? && !PermitsUnknownOutput(c.method_) then Err(Unsupported)
    else
      var output :- Dispatch(i, c, inputs, maximum, settings, foreign);
      if |output| > maximum then Err(LimitExceeded)
      else if c.expected.Some? && c.expected.value != |output| then Err(Format)
      else Ok(output)
  }

  ghost predicate ForeignObeys(foreign: ForeignDecoder) {
    forall i, inputs, cap: nat, maximum: nat | cap <= maximum ::
      Obeys(foreign(i, inputs, cap), foreign(i, inputs, maximum), cap)
  }

  /** Every coder obeys its limit. */
  lemma CoderObeys(i: nat, c: Spec, inputs: seq<Bytes>, cap: nat, maximum: nat, settings: Settings,
                   foreign: ForeignDecoder)
    requires cap <= maximum && ForeignObeys(foreign)
    ensures Obeys(DecodeCoder(i, c, inputs, cap, settings, foreign),
                  DecodeCoder(i, c, inputs, maximum, settings, foreign), cap)
  {
    hide Single, J.DecodeBcj2;
    if IsForeign(c.method_) {
    } else if c.method_ == Bcj2 {
      Bcj2Obeys(inputs, c.properties, c.expected, cap, maximum);
    } else if |inputs| == 1 {
      SingleObeys(c, inputs[0], cap, maximum, settings);
    }
  }

  lemma SingleObeys(c: Spec, input: Bytes, cap: nat, maximum: nat, settings: Settings)
    requires cap <= maximum && !IsForeign(c.method_) && !c.method_.Bcj2?
    ensures Obeys(Single(c, input, cap, settings), Single(c, input, maximum, settings), cap)
  {
    hide L.DecodeLzma, Z.DecodeLzma2, D.DecodeDeflate64, Filtered;
    LzmaObeys(input, c.properties, c.expected, cap, maximum);
    Lzma2Obeys(input, c.properties, c.expected, cap, maximum);
    Deflate64Obeys(input, c.expected, settings.maxDictionary, cap, maximum);
  }

  // ---- folders ----

  /** A folder with its packed streams, its coders, its digest and the dictionary memory it declares. */
  datatype Source = Source(f: Folder, packed: Packed, specs: seq<Spec>, crc: Option<u32>, dictionary: nat)

  /** Coder `i` of a folder; only the root output is held to the caller's cap. */
  function CoderOutput(x: Source, cap: nat, settings: Settings, foreign: ForeignDecoder, i: nat, inputs: seq<Bytes>)
    : Result<Bytes>
  {
    if i >= |x.specs| then Err(Format)
    else DecodeCoder(i, x.specs[i], inputs, if i == x.f.root then cap else settings.maxTotal, settings, foreign)
  }

  /** The coders of a folder under a cap. */
  function Coders(x: Source, cap: nat, settings: Settings, foreign: ForeignDecoder): Decoder {
    (i: nat, inputs: seq<Bytes>) => CoderOutput(x, cap, settings, foreign, i, inputs)
  }

  ghost predicate Usable(raw: RawFolder, x: Source) {
    FolderExecution.Validated(raw, x.f) && |x.specs| == |x.f.coders|
  }

  predicate AllRegistered(x: Source)
    requires |x.specs| == |x.f.coders|
  {
    forall i | 0 <= i < |x.specs| :: Registered(x.specs[i], x.f.coders[i].inputCount, x.f.coders[i].outputCount)
  }

  lemma RegisteredSingle(x: Source)
    requires |x.specs| == |x.f.coders| && AllRegistered(x)
    ensures SingleOutputs(x.f)
  {
    hide PropertiesFit;
    forall i | 0 <= i < |x.f.coders| ensures x.f.coders[i].outputCount == 1 {
      assert Registered(x.specs[i], x.f.coders[i].inputCount, x.f.coders[i].outputCount);
    }
  }

  /** The bytes and the digest verdict of a folder whose packed streams are intact. */
  ghost function GraphOutput(raw: RawFolder, x: Source, packs: seq<Bytes>, cap: nat, settings: Settings,
                             foreign: ForeignDecoder): Result<Decoded>
    requires Usable(raw, x) && SingleOutputs(x.f) && |packs| == |x.f.packed|
  {
    var owners := Owners(Inputs(raw.coders));
    ValidatedIsGood(raw, x.f);
    RootInRange(x.f, owners);
    var bytes :- Eval(x.f, owners, packs, Coders(x, cap, settings, foreign), x.f.root);
    Ok(Decoded(bytes, !Matches(x.crc, bytes)))
  }

  /** What `decode_folder` returns: its checks before the coders run do not depend on the cap. */
  ghost function FolderOutput(raw: RawFolder, x: Source, cap: nat, settings: Settings, foreign: ForeignDecoder)
    : Result<Decoded>
    requires Usable(raw, x)
  {
    if x.dictionary > settings.maxDictionary then Err(LimitExceeded)
    else if !AllRegistered(x) then Err(Format)
    else
      RegisteredSingle(x);
      var packs :- AllPacks(x.packed, |x.f.packed|);
      GraphOutput(raw, x, packs, cap, settings, foreign)
  }

  /** A declared root size over the cap fails early in the program, and would fail at the root coder anyway. */
  lemma RootFits(raw: RawFolder, x: Source, cap: nat, settings: Settings, foreign: ForeignDecoder)
    requires Usable(raw, x) && FolderOutput(raw, x, cap, settings, foreign).Ok?
    ensures x.f.root < |x.specs|
    ensures var expected := x.specs[x.f.root].expected; expected.Some? ==> expected.value <= cap
  {
    hide Dispatch, FolderExecution.Validated, Good, EvalInputs, AllPacks, AllRegistered;
  }

  method CheckRegistrations(x: Source) returns (r: Result<()>)
    requires |x.specs| == |x.f.coders|
    ensures r.Ok? <==> AllRegistered(x)
  {
    hide Registered;
    for i := 0 to |x.specs|
      invariant forall j | 0 <= j < i :: Registered(x.specs[j], x.f.coders[j].inputCount, x.f.coders[j].outputCount)
    {
      if !Registered(x.specs[i], x.f.coders[i].inputCount, x.f.coders[i].outputCount) {
        return Err(Format);
      }
    }
    r := Ok(());
  }

  /** `decode_folder`, from the dictionary limit to the digest. */
  method DecodeFolder(ghost raw: RawFolder, x: Source, cap: nat, settings: Settings, foreign: ForeignDecoder)
    returns (r: Result<Decoded>)
    requires Usable(raw, x)
    ensures var o := FolderOutput(raw, x, cap, settings, foreign);
            (r.Ok? <==> o.Ok?) && (r.Ok? ==> r.value == o.value)
  {
    hide CoderOutput, Eval, FolderExecution.Validated, Good, AllPacks, AllRegistered, Matches;
    if x.dictionary > settings.maxDictionary {
      return Err(LimitExceeded);
    }
    if x.f.root < |x.specs| && x.specs[x.f.root].expected.Some? && x.specs[x.f.root].expected.value > cap {
      if FolderOutput(raw, x, cap, settings, foreign).Ok? {
        RootFits(raw, x, cap, settings, foreign);
      }
      return Err(LimitExceeded);
    }
    var registered := CheckRegistrations(x);
    if registered.Err? {
      return Err(registered.error);
    }
    RegisteredSingle(x);
    var bytes := FolderExecution.DecodeFolder(raw, x.f, x.packed, Coders(x, cap, settings, foreign));
    if bytes.Err? {
      return Err(bytes.error);
    }
    r := Ok(Decoded(bytes.value, !Matches(x.crc, bytes.value)));
  }

  // ---- the cap ----

  /** Two families of coders that agree except at one coder agree on every coder that runs before it. */
  lemma {:induction false} EvalBefore(f: Folder, owners: seq<nat>, packs: seq<Bytes>, d: Decoder, e: Decoder,
                                      root: nat, i: nat)
    requires Good(f, owners) && |packs| == |f.packed| && root < |f.coders| && i < |f.coders|
    requires forall j, inputs | j != root :: d(j, inputs) == e(j, inputs)
    requires Rank(f, owners, i) < Rank(f, owners, root)
    ensures Eval(f, owners, packs, d, i) == Eval(f, owners, packs, e, i)
    decreases Rank(f, owners, i), f.coders[i].inputCount + 1
  {
    hide Good, EvalPort;
    InputsBefore(f, owners, packs, d, e, root, i, f.coders[i].inputCount);
  }

  lemma {:induction false} InputsBefore(f: Folder, owners: seq<nat>, packs: seq<Bytes>, d: Decoder, e: Decoder,
                                        root: nat, i: nat, k: nat)
    requires Good(f, owners) && |packs| == |f.packed| && root < |f.coders| && i < |f.coders|
    requires forall j, inputs | j != root :: d(j, inputs) == e(j, inputs)
    requires Rank(f, owners, i) <= Rank(f, owners, root) && k <= f.coders[i].inputCount
    ensures EvalInputs(f, owners, packs, d, i, k) == EvalInputs(f, owners, packs, e, i, k)
    decreases Rank(f, owners, i), k
  {
    hide Eval;
    if k > 0 {
      InputsBefore(f, owners, packs, d, e, root, i, k - 1);
      var p := f.coders[i].inputStart + k - 1;
      PortOwner(f.coders, owners, i, p);
      match SourceOf(f, owners, p)
      case FromPack(_) =>
      case FromCoder(o) =>
        EvalBefore(f, owners, packs, d, e, root, o);
    }
  }

  /** The cap on a folder turns long outputs down and changes nothing else. */
  lemma FolderObeys(raw: RawFolder, x: Source, cap: nat, maximum: nat, settings: Settings, foreign: ForeignDecoder)
    requires Usable(raw, x) && cap <= maximum && ForeignObeys(foreign)
    ensures var large := FolderOutput(raw, x, maximum, settings, foreign);
            Exact(FolderOutput(raw, x, cap, settings, foreign), large, large.Ok? && |large.value.bytes| <= cap)
  {
    hide AllRegistered, AllPacks, GraphOutput, FolderExecution.Validated;
    if AllRegistered(x) && AllPacks(x.packed, |x.f.packed|).Ok? {
      RegisteredSingle(x);
      GraphObeys(raw, x, AllPacks(x.packed, |x.f.packed|).value, cap, maximum, settings, foreign);
    }
  }

  lemma GraphObeys(raw: RawFolder, x: Source, packs: seq<Bytes>, cap: nat, maximum: nat, settings: Settings,
                   foreign: ForeignDecoder)
    requires Usable(raw, x) && SingleOutputs(x.f) && |packs| == |x.f.packed|
    requires cap <= maximum && ForeignObeys(foreign)
    ensures var large := GraphOutput(raw, x, packs, maximum, settings, foreign);
            Exact(GraphOutput(raw, x, packs, cap, settings, foreign), large, large.Ok? && |large.value.bytes| <= cap)
  {
    var owners := Owners(Inputs(raw.coders));
    ValidatedIsGood(raw, x.f);
    RootInRange(x.f, owners);
    hide Good, FolderExecution.Validated, DecodeCoder, Owners, Eval, Matches;
    var inputs := AtRoot(x, owners, packs, cap, maximum, settings, foreign);
    if inputs.Some? {
      CoderObeys(x.f.root, x.specs[x.f.root], inputs.value, cap, maximum, settings, foreign);
    }
  }

  /** Under both caps the root coder sees the same inputs, or none because a coder before it fails. */
  lemma AtRoot(x: Source, owners: seq<nat>, packs: seq<Bytes>, cap: nat, maximum: nat, settings: Settings,
               foreign: ForeignDecoder)
    returns (inputs: Option<seq<Bytes>>)
    requires Good(x.f, owners) && |packs| == |x.f.packed| && x.f.root < |x.f.coders| == |x.specs|
    ensures var d, e := Coders(x, cap, settings, foreign), Coders(x, maximum, settings, foreign);
            var i, c := x.f.root, x.specs[x.f.root];
            if inputs.None? then Eval(x.f, owners, packs, d, i).Err? && Eval(x.f, owners, packs, e, i).Err?
            else && Eval(x.f, owners, packs, d, i) == DecodeCoder(i, c, inputs.value, cap, settings, foreign)
                 && Eval(x.f, owners, packs, e, i) == DecodeCoder(i, c, inputs.value, maximum, settings, foreign)
  {
    hide Good, DecodeCoder, EvalInputs;
    var d, e := Coders(x, cap, settings, foreign), Coders(x, maximum, settings, foreign);
    InputsBefore(x.f, owners, packs, d, e, x.f.root, x.f.root, x.f.coders[x.f.root].inputCount);
    var all := EvalInputs(x.f, owners, packs, d, x.f.root, x.f.coders[x.f.root].inputCount);
    inputs := if all.Ok? then Some(all.value) else None;
  }

  /** So a folder decoder built from the executor has the property that verification relies on. */
  lemma ExecutorIsMonotone(raws: seq<RawFolder>, xs: seq<Source>, settings: Settings, foreign: ForeignDecoder,
                           d: FolderDecoder)
    requires |raws| == |xs| && ForeignObeys(foreign) && forall f | 0 <= f < |xs| :: Usable(raws[f], xs[f])
    requires forall f: nat, cap: nat ::
               d(f, cap) == if f < |xs| then FolderOutput(raws[f], xs[f], cap, settings, foreign) else Err(Format)
    ensures Monotone(d)
  {
    hide FolderOutput, Usable, ForeignObeys;
    forall f: nat, cap: nat, cap': nat | cap <= cap' && d(f, cap).Ok?
      ensures d(f, cap') == d(f, cap)
    {
      FolderObeys(raws[f], xs[f], cap, cap', settings, foreign);
    }
    forall f: nat, cap: nat | d(f, cap).Ok?
      ensures |d(f, cap).value.bytes| <= cap
    {
      FolderObeys(raws[f], xs[f], cap, cap, settings, foreign);
    }
  }

  /** A folder's output has the size its root coder is declared to have. */
  lemma RootSized(raw: RawFolder, x: Source, cap: nat, settings: Settings, foreign: ForeignDecoder)
    requires Usable(raw, x) && FolderOutput(raw, x, cap, settings, foreign).Ok?
    ensures x.f.root < |x.specs|
    ensures var expected, o := x.specs[x.f.root].expected, FolderOutput(raw, x, cap, settings, foreign);
            expected.Some? ==> |o.value.bytes| == expected.value
  {
    hide Dispatch, FolderExecution.Validated, Good, EvalInputs, AllPacks, AllRegistered;
  }

  /** It decodes under every cap its output fits, and the output has the declared root size. */
  lemma ExecutorIsPrecise(a: Archive, raws: seq<RawFolder>, xs: seq<Source>, settings: Settings,
                          foreign: ForeignDecoder, d: FolderDecoder)
    requires |raws| == |xs| && ForeignObeys(foreign) && forall f | 0 <= f < |xs| :: Usable(raws[f], xs[f])
    requires forall f: nat, cap: nat ::
               d(f, cap) == if f < |xs| then FolderOutput(raws[f], xs[f], cap, settings, foreign) else Err(Format)
    requires |a.roots| == |xs|
    requires forall f | 0 <= f < |xs| && a.roots[f].Some? ::
               xs[f].f.root < |xs[f].specs| && xs[f].specs[xs[f].f.root].expected == Some(a.roots[f].value)
    ensures X.Precise(d) && X.Sized(a, d)
  {
    hide FolderOutput, Usable, ForeignObeys;
    forall f: nat, cap: nat, other: nat | d(f, cap).Ok?
      ensures d(f, other).Ok? <==> |d(f, cap).value.bytes| <= other
      ensures d(f, other).Ok? ==> d(f, other) == d(f, cap)
    {
      FolderObeys(raws[f], xs[f], Min(cap, other), Max(cap, other), settings, foreign);
      FolderObeys(raws[f], xs[f], cap, cap, settings, foreign);
    }
    forall f: nat, cap: nat | f < |a.roots| && a.roots[f].Some? && d(f, cap).Ok?
      ensures |d(f, cap).value.bytes| == a.roots[f].value
    {
      RootSized(raws[f], xs[f], cap, settings, foreign);
    }
  }

  /** An archive whose folders the executor decodes: once verified, it extracts completely into any willing sink. */
  method VerifyThenExtract(a: Archive, ghost raws: seq<RawFolder>, ghost xs: seq<Source>, ghost settings: Settings,
                           ghost foreign: ForeignDecoder, d: FolderDecoder, sink: N.EntrySink, before: nat)
    returns (verified: Result<()>, extracted: Result<nat>)
    requires |raws| == |xs| && ForeignObeys(foreign) && forall f | 0 <= f < |xs| :: Usable(raws[f], xs[f])
    requires forall f: nat, cap: nat ::
               d(f, cap) == if f < |xs| then FolderOutput(raws[f], xs[f], cap, settings, foreign) else Err(Format)
    requires Extraction.Validated(a) && sink.log == []
    modifies sink
    ensures verified.Ok? && sink.Willing() ==> extracted.Ok? && sink.log == N.GroupsOf(a, d, |a.members|)
  {
    ExecutorIsMonotone(raws, xs, settings, foreign, d);
    verified, extracted := N.VerifyThenExtract(a, d, sink, before);
  }
}
