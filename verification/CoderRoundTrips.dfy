/** Which decoder a method runs: `decode_coder` over the real decoders, and what undoes each method's encoder. */
module CoderRoundTrips {
  import opened Prelude
  import opened FolderExecution
  import opened FolderDecoding
  import O = LzmaOperations
  import R = LzmaRange
  import L = LzmaStream
  import LzmaDecoder
  import Z = Lzma2
  import Lzma2Decoder
  import BitStrings
  import G = Deflate64Bits
  import T = Deflate64Tables
  import D = Deflate64Stream
  import Deflate64Decoder
  import Deflate64Stored
  import J = Bcj2Filter
  import Delta = DeltaFilter
  import F = BranchFilters
  import Thumb = ThumbFilter
  import Ia64 = Ia64Filter

  // ---- the dispatch over the decoders themselves ----

  /** `decode_filter`: one of the in-place filters over a copy of the input. */
  method DecodeFilter(m: Method, properties: seq<byte>, input: Bytes) returns (r: Result<Bytes>)
    requires IsFilter(m)
    ensures var x := Filtered(m, properties, input); (r.Ok? <==> x.Ok?) && (r.Ok? ==> r.value == x.value)
  {
    hide F.Scan, Thumb.Scan, Ia64.Scan, Delta.Summed, F.Next;
    var bytes := new byte[|input|](i requires 0 <= i < |input| => input[i]);
    assert bytes[..] == input;
    var done;
    if m == Delta {
      done := Delta.DecodeDelta(bytes, properties);
    } else if m == Ppc {
      done := F.DecodePpc(bytes, properties);
    } else if m == Arm {
      done := F.DecodeArm(bytes, properties);
    } else if m == Arm64 {
      done := F.DecodeArm64(bytes, properties);
    } else if m == Sparc {
      done := F.DecodeSparc(bytes, properties);
    } else if m == Method.Ia64 {
      done := Ia64.DecodeIa64(bytes, properties);
    } else {
      done := Thumb.DecodeThumb(bytes, properties);
    }
    r := if done.Ok? then Ok(bytes[..]) else Err(done.error);
  }

  /** The branches of `decode_coder` for one input. */
  method DecodeSingle(c: Spec, input: Bytes, maximum: nat, settings: Settings) returns (r: Result<Bytes>)
    requires !IsForeign(c.method_) && !c.method_.Bcj2?
    ensures var x := Single(c, input, maximum, settings); (r.Ok? <==> x.Ok?) && (r.Ok? ==> r.value == x.value)
  {
    hide L.DecodeLzma, Z.DecodeLzma2, D.DecodeDeflate64, Filtered;
    if c.method_ == Lzma {
      r := LzmaDecoder.DecodeLzma(input, c.properties, c.expected, maximum);
    } else if c.method_ == Lzma2 {
      r := Lzma2Decoder.DecodeLzma2(input, c.properties, c.expected, maximum);
    } else if c.method_ == Deflate64 {
      r := Deflate64Decoder.DecodeDeflate64(input, c.expected, maximum, settings.maxDictionary);
    } else if c.method_ == Copy {
      if c.properties != [] {
        return Err(Format);
      }
      r := if |input| > maximum then Err(LimitExceeded) else Ok(input);
    } else if |input| > maximum {
      r := Err(LimitExceeded);
    } else {
      r := DecodeFilter(c.method_, c.properties, input);
    }
  }

  /** `decode_coder`. */
  method RunCoder(i: nat, c: Spec, inputs: seq<Bytes>, maximum: nat, settings: Settings, foreign: ForeignDecoder)
    returns (r: Result<Bytes>)
    ensures var x := DecodeCoder(i, c, inputs, maximum, settings, foreign);
            (r.Ok? <==> x.Ok?) && (r.Ok? ==> r.value == x.value)
  {
    hide Single, J.DecodeBcj2;
    if c.expected.None? && !PermitsUnknownOutput(c.method_) {
      return Err(Unsupported);
    }
    var output;
    if IsForeign(c.method_) {
      output := foreign(i, inputs, maximum);
    } else if c.method_ == Bcj2 {
      output := J.DecodeStreams(inputs, c.properties, c.expected, maximum);
    } else if |inputs| != 1 {
      return Err(Format);
    } else {
      output := DecodeSingle(c, inputs[0], maximum, settings);
    }
    if output.Err? {
      return output;
    }
    if |output.value| > maximum {
      return Err(LimitExceeded);
    }
    if c.expected.Some? && c.expected.value != |output.value| {
      return Err(Format);
    }
    r := output;
  }

  // ---- every method undoes its own encoder ----

  /** A declared size, if any, is the right one, and the limit allows it. */
  predicate Expects(expected: Option<nat>, maximum: nat, size: nat) {
    size <= maximum && (expected.Some? ==> expected.value == size)
  }

  /** Where the properties of a branch filter start its positions. */
  predicate StartsAt(properties: seq<byte>, start: u32) {
    (properties == [] && start == 0) || properties == LittleBytes(start, 4)
  }

  lemma StartRead(properties: seq<byte>, start: u32)
    requires StartsAt(properties, start)
    ensures F.StartingPosition(properties) == Ok(start)
  {
    if properties != [] {
      var p := properties;
      LittleOfBytes(start, 4);
      assert Pow256(4) == 0x1_0000_0000 by {
        assert Pow256(1) == 0x100 && Pow256(2) == 0x1_0000 && Pow256(3) == 0x100_0000;
      }
      assert LittleEndian(p) == p[0] as int + 0x100 * LittleEndian(p[1..]);
      assert LittleEndian(p[1..]) == p[1] as int + 0x100 * LittleEndian(p[2..]) by { assert p[1..][1..] == p[2..]; }
      assert LittleEndian(p[2..]) == p[2] as int + 0x100 * LittleEndian(p[3..]) by { assert p[2..][1..] == p[3..]; }
      assert LittleEndian(p[3..]) == p[3] as int by { assert p[3..][1..] == []; }
    }
  }

  /** A filter's output is what the filter gives, if the limit and the declared size allow its length. */
  lemma FilterRuns(i: nat, c: Spec, input: Bytes, maximum: nat, settings: Settings, foreign: ForeignDecoder, s: Bytes)
    requires IsFilter(c.method_) && Filtered(c.method_, c.properties, input) == Ok(s)
    requires Expects(c.expected, maximum, |s|)
    ensures DecodeCoder(i, c, [input], maximum, settings, foreign) == Ok(s)
  {
    hide Filtered;
  }

  lemma DeltaRoundTrip(i: nat, d: nat, s: Bytes, expected: Option<nat>, maximum: nat, settings: Settings,
                       foreign: ForeignDecoder)
    requires 1 <= d <= 256 && Expects(expected, maximum, |s|)
    ensures DecodeCoder(i, Spec(Method.Delta, [d - 1], expected), [Delta.Differences(s, d)], maximum, settings, foreign)
         == Ok(s)
  {
    hide Delta.Summed, Delta.Differences, DecodeCoder, Delta.Back;
    Delta.DeltaInverse(s, d);
    FilterRuns(i, Spec(Method.Delta, [d - 1], expected), Delta.Differences(s, d), maximum, settings, foreign, s);
  }

  /** PowerPC and SPARC code, from a multiple of 4. */
  lemma WordRoundTrips(i: nat, properties: seq<byte>, start: u32, s: Bytes, expected: Option<nat>, maximum: nat,
                       settings: Settings, foreign: ForeignDecoder)
    requires StartsAt(properties, start) && start % 4 == 0 && Expects(expected, maximum, |s|)
    ensures var input := F.Scan(F.PpcStep, start, s, true, true);
            DecodeCoder(i, Spec(Ppc, properties, expected), [input], maximum, settings, foreign) == Ok(s)
    ensures var input := F.Scan(F.SparcStep, start, s, true, true);
            DecodeCoder(i, Spec(Sparc, properties, expected), [input], maximum, settings, foreign) == Ok(s)
  {
    StartRead(properties, start);
    F.PpcScanInverse(start);
    F.SparcScanInverse(start);
    hide F.Scan, F.StartingPosition;
    var ppc, sparc := F.Scan(F.PpcStep, start, s, true, true), F.Scan(F.SparcStep, start, s, true, true);
    assert F.Scan(F.PpcStep, start, ppc, true, !true) == s;
    assert F.Scan(F.SparcStep, start, sparc, true, !true) == s;
    FilterRuns(i, Spec(Ppc, properties, expected), ppc, maximum, settings, foreign, s);
    FilterRuns(i, Spec(Sparc, properties, expected), sparc, maximum, settings, foreign, s);
  }

  lemma TwoAhead(start: u32)
    ensures F.Next(F.Next(start)) == (start + 8) % F.WORDS
  {
  }

  /** ARM code, whose positions run two instructions ahead, from anywhere. */
  lemma ArmRoundTrip(i: nat, properties: seq<byte>, start: u32, s: Bytes, expected: Option<nat>, maximum: nat,
                     settings: Settings, foreign: ForeignDecoder)
    requires StartsAt(properties, start) && Expects(expected, maximum, |s|)
    ensures var input := F.Scan(F.ArmStep, (start + 8) % F.WORDS, s, false, true);
            DecodeCoder(i, Spec(Arm, properties, expected), [input], maximum, settings, foreign) == Ok(s)
  {
    StartRead(properties, start);
    TwoAhead(start);
    var ahead: u32 := (start + 8) % F.WORDS;
    hide F.Scan, F.StartingPosition, F.Next, DecodeCoder, F.ArmStep;
    F.ArmScanInverse(ahead, s, true);
    var input := F.Scan(F.ArmStep, ahead, s, false, true);
    FilterRuns(i, Spec(Arm, properties, expected), input, maximum, settings, foreign, s);
  }

  /** ARM64 code, from anywhere. */
  lemma Arm64RoundTrip(i: nat, properties: seq<byte>, start: u32, s: Bytes, expected: Option<nat>, maximum: nat,
                       settings: Settings, foreign: ForeignDecoder)
    requires StartsAt(properties, start) && Expects(expected, maximum, |s|)
    ensures var input := F.Scan(F.Arm64Step, start, s, false, true);
            DecodeCoder(i, Spec(Arm64, properties, expected), [input], maximum, settings, foreign) == Ok(s)
  {
    StartRead(properties, start);
    hide F.Scan, F.StartingPosition, DecodeCoder, F.ArmStep, F.Arm64Step;
    F.ArmScanInverse(start, s, true);
    var input := F.Scan(F.Arm64Step, start, s, false, true);
    FilterRuns(i, Spec(Arm64, properties, expected), input, maximum, settings, foreign, s);
  }

  /** ARM Thumb code, from an even start. */
  lemma ThumbRoundTrip(i: nat, properties: seq<byte>, start: u32, s: Bytes, expected: Option<nat>, maximum: nat,
                       settings: Settings, foreign: ForeignDecoder)
    requires StartsAt(properties, start) && start % 2 == 0 && Expects(expected, maximum, |s|)
    ensures var input := Thumb.Scan(start, 0, s, true);
            DecodeCoder(i, Spec(ArmThumb, properties, expected), [input], maximum, settings, foreign) == Ok(s)
  {
    StartRead(properties, start);
    Thumb.ScanInverse(start, 0, s, true);
    var input := Thumb.Scan(start, 0, s, true);
    ShortThumb(start, s, true);
    ShortThumb(start, input, false);
    hide Thumb.Scan, F.StartingPosition;
    FilterRuns(i, Spec(ArmThumb, properties, expected), input, maximum, settings, foreign, s);
  }

  lemma ShortThumb(start: u32, s: Bytes, back: bool)
    ensures |s| < 4 ==> Thumb.Scan(start, 0, s, back) == s
    ensures |Thumb.Scan(start, 0, s, back)| == |s|
  {
  }

  /** IA-64 code, from a multiple of 16. */
  lemma Ia64RoundTrip(i: nat, properties: seq<byte>, start: u32, s: Bytes, expected: Option<nat>, maximum: nat,
                      settings: Settings, foreign: ForeignDecoder)
    requires StartsAt(properties, start) && start % 16 == 0 && Expects(expected, maximum, |s|)
    ensures var input := Ia64.Scan(start, 0, s, true);
            DecodeCoder(i, Spec(Method.Ia64, properties, expected), [input], maximum, settings, foreign) == Ok(s)
  {
    StartRead(properties, start);
    Ia64.ScanInverse(start, 0, s, true);
    hide Ia64.Scan, F.StartingPosition;
    FilterRuns(i, Spec(Method.Ia64, properties, expected), Ia64.Scan(start, 0, s, true), maximum, settings, foreign, s);
  }

  lemma CopyRoundTrip(i: nat, s: Bytes, expected: Option<nat>, maximum: nat, settings: Settings,
                      foreign: ForeignDecoder)
    requires Expects(expected, maximum, |s|)
    ensures DecodeCoder(i, Spec(Copy, [], expected), [s], maximum, settings, foreign) == Ok(s)
  {
  }

  /** LZMA, with a declared size and with an end marker. */
  lemma LzmaRoundTrips(i: nat, p: L.Properties, dictionary: seq<byte>, cs: seq<O.Choice>, trailing: seq<byte>,
                       extra: nat, maximum: nat, settings: Settings, foreign: ForeignDecoder)
    requires p.lc + p.lp <= 4 && p.pb <= 4 && |dictionary| == 4 && extra < 272
    requires var w := L.LzmaLimits(dictionary, maximum);
             L.AllAllowed(L.NO_REPS, [], w, cs) && |L.Expand(L.NO_REPS, [], w, cs)| <= maximum
    ensures var w, m, properties := L.LzmaLimits(dictionary, maximum), O.FreshModel(p.lc, p.lp, p.pb),
                                    [L.PropertyByte(p)] + dictionary;
            var s := L.Expand(L.NO_REPS, [], w, cs);
            && DecodeCoder(i, Spec(Lzma, properties, Some(|s|)), [R.CodeBytes(L.Code(m, [], w, cs).ds) + trailing],
                           maximum, settings, foreign) == Ok(s)
            && DecodeCoder(i, Spec(Lzma, properties, None), [R.CodeBytes(L.CodeToEnd(m, [], w, cs, extra))], maximum,
                           settings, foreign) == Ok(s)
  {
    hide L.DecodeLzma, L.AllAllowed, L.Expand, L.Code, L.CodeToEnd, O.FreshModel, L.LzmaLimits, O.ModelOk, R.CodeBytes;
    L.FreshStart(p, dictionary, maximum);
    L.LzmaInverts(p, dictionary, cs, maximum, trailing);
    L.EndedLzmaInverts(p, dictionary, cs, maximum, extra);
  }

  lemma Lzma2RoundTrip(i: nat, property: byte, chunks: seq<Z.Chunk>, expected: Option<nat>, maximum: nat,
                       settings: Settings, foreign: ForeignDecoder)
    requires property <= 40
    requires var w := Z.Bounds(maximum, Z.Dictionary([property]).value, expected);
             Z.AllOk(Z.INITIAL, w, chunks) && Expects(expected, maximum, |Z.Produced(Z.INITIAL, w, chunks)|)
    ensures var w := Z.Bounds(maximum, Z.Dictionary([property]).value, expected);
            DecodeCoder(i, Spec(Lzma2, [property], expected), [Z.PrintAll(Z.INITIAL, w, chunks)], maximum, settings,
                        foreign)
            == Ok(Z.Produced(Z.INITIAL, w, chunks))
  {
    hide Z.DecodeLzma2, Z.AllOk, Z.PrintAll, Z.Produced, Z.Dictionary;
    Z.Lzma2Inverts(property, chunks, maximum, expected);
  }

  lemma Deflate64RoundTrip(i: nat, blocks: seq<D.BlockSpec>, padding: BitStrings.Bits, expected: Option<nat>,
                           maximum: nat, settings: Settings, foreign: ForeignDecoder)
    requires |padding| < 8 && D.Write([], blocks, padding).Some? && settings.maxDictionary >= T.HISTORY
    requires var x := D.Write([], blocks, padding).value;
             |x.bits| % 8 == 0 && Expects(expected, maximum, |x.out|)
    ensures var x := D.Write([], blocks, padding).value;
            DecodeCoder(i, Spec(Deflate64, [], expected), [G.PackBytes(x.bits)], maximum, settings, foreign)
            == Ok(x.out)
  {
    hide D.DecodeDeflate64, D.Write, G.PackBytes;
    D.Deflate64Inverts(blocks, padding, expected, maximum, settings.maxDictionary);
  }

  lemma Bcj2RoundTrip(i: nat, tokens: seq<J.Token>, expected: Option<nat>, maximum: nat, settings: Settings,
                      foreign: ForeignDecoder)
    requires J.Legal(tokens, 0) && Expects(expected, maximum, |J.Expand(tokens)|)
    ensures var e := J.Encode(tokens, 0, 0, J.Fresh());
            DecodeCoder(i, Spec(Bcj2, [], expected), [e.s.main, e.s.call, e.s.jump, R.CodeBytes(e.ds)], maximum,
                        settings, foreign) == Ok(J.Expand(tokens))
  {
    hide J.DecodeBcj2, J.Legal, J.Encode, J.Expand, R.CodeBytes;
    J.Bcj2Inverts(tokens, expected, maximum);
  }

  // ---- registration is exact ----

  /** Properties and limits under which a registered coder has an encoder for every byte string. */
  predicate Encodable(c: Spec, settings: Settings) {
    var p := c.properties;
    match c.method_
    case Lzma => p != [] && L.PropertiesFromByte(p[0]).Ok?
    case Lzma2 => p != [] && p[0] <= 40
    case Ppc | Sparc => LittleEndian(p) % 4 == 0
    case ArmThumb => LittleEndian(p) % 2 == 0
    case Ia64 => LittleEndian(p) % 16 == 0
    case Deflate64 => settings.maxDictionary >= T.HISTORY
    case _ => true
  }

  /** A coder that decodes anything was registered; only Deflate64 ignores its properties, and Thumb those of a program
      too short to hold a branch. */
  lemma OnlyRegistered(i: nat, c: Spec, inputs: seq<Bytes>, maximum: nat, settings: Settings, foreign: ForeignDecoder)
    requires !IsForeign(c.method_) && DecodeCoder(i, c, inputs, maximum, settings, foreign).Ok?
    ensures Registered(c, |inputs|, 1) ||
            (|inputs| == 1 && (c.method_.Deflate64? || (c.method_.ArmThumb? && |inputs[0]| < 4)))
  {
    hide L.DecodeStream, Z.RunChunks, D.Stream, J.Merge, F.Scan, Thumb.Scan, Ia64.Scan, Delta.Summed;
  }

  /** PPMd properties as an encoder writes them: an order from 2 to 64, at least 2 KiB, and perhaps two zero bytes. */
  lemma PpmdProperties(order: byte, memory: u32, tail: seq<byte>)
    ensures PropertiesFit(Ppmd, [order] + LittleBytes(memory, 4) + tail) <==>
            2 <= order <= 64 && memory >= 2048 && (tail == [] || tail == [0, 0])
  {
    hide LittleBytes;
    var p := [order] + LittleBytes(memory, 4) + tail;
    assert p[1..5] == LittleBytes(memory, 4) && p[5..] == tail;
    assert Pow256(1) == 0x100 && Pow256(2) == 0x1_0000 && Pow256(3) == 0x100_0000 && Pow256(4) == 0x1_0000_0000;
    LittleOfBytes(memory, 4);
    hide LittleEndian;
    if |p| == 7 {
      assert tail == [p[5], p[6]];
    }
  }

  /** A Thumb program too short to hold a branch stays as it is, whatever the properties. */
  lemma ShortProgram(i: nat, properties: seq<byte>, s: Bytes, expected: Option<nat>, maximum: nat, settings: Settings,
                     foreign: ForeignDecoder)
    requires |s| < 4 && Expects(expected, maximum, |s|)
    ensures DecodeCoder(i, Spec(ArmThumb, properties, expected), [s], maximum, settings, foreign) == Ok(s)
  {
    hide Thumb.Scan, F.Scan;
  }

  /** PPMd, the framed formats and AES need a declared size. */
  lemma SizesNeeded(i: nat, c: Spec, inputs: seq<Bytes>, maximum: nat, settings: Settings, foreign: ForeignDecoder)
    requires c.expected.None? && c.method_ in {Ppmd, Bzip2, Brotli, Lz4, Zstd, Aes, Unknown}
    ensures DecodeCoder(i, c, inputs, maximum, settings, foreign).Err?
  {
    hide Dispatch;
  }

  function Literals(s: seq<byte>): (cs: seq<O.Choice>)
    ensures |cs| == |s|
  {
    if s == [] then [] else [O.Lit(s[0])] + Literals(s[1..])
  }

  lemma {:induction false} LiteralsExpand(reps: seq<u32>, out: seq<byte>, w: L.Limits, s: seq<byte>)
    requires |reps| == 4
    ensures L.AllAllowed(reps, out, w, Literals(s)) && L.Expand(reps, out, w, Literals(s)) == out + s
    decreases |s|
  {
    if s != [] {
      LiteralsExpand(reps, out + [s[0]], w, s[1..]);
      assert Literals(s)[1..] == Literals(s[1..]);
      assert out + [s[0]] + s[1..] == out + s;
    }
  }

  lemma LzmaReaches(i: nat, c: Spec, s: Bytes, maximum: nat, settings: Settings, foreign: ForeignDecoder)
    returns (input: Bytes)
    requires c.method_.Lzma? && |c.properties| == 5 && L.PropertiesFromByte(c.properties[0]).Ok?
    requires Expects(c.expected, maximum, |s|)
    ensures DecodeCoder(i, c, [input], maximum, settings, foreign) == Ok(s)
  {
    hide L.DecodeLzma, L.AllAllowed, L.Expand, L.Code, L.CodeToEnd, O.FreshModel, L.LzmaLimits, O.ModelOk, R.CodeBytes,
         L.PropertiesFromByte, L.PropertyByte, DecodeCoder;
    var p, dictionary := L.PropertiesFromByte(c.properties[0]).value, c.properties[1..];
    L.PropertiesInverse(c.properties[0], p);
    assert c.properties == [L.PropertyByte(p)] + dictionary;
    var w, m, cs := L.LzmaLimits(dictionary, maximum), O.FreshModel(p.lc, p.lp, p.pb), Literals(s);
    L.FreshStart(p, dictionary, maximum);
    LiteralsExpand(L.NO_REPS, [], w, s);
    assert [] + s == s;
    LzmaRoundTrips(i, p, dictionary, cs, [], 0, maximum, settings, foreign);
    input := if c.expected.Some? then R.CodeBytes(L.Code(m, [], w, cs).ds) + []
             else R.CodeBytes(L.CodeToEnd(m, [], w, cs, 0));
    assert c == Spec(Lzma, c.properties, c.expected);
  }

  lemma StartOf(p: seq<byte>)
    returns (start: u32)
    requires |p| == 0 || |p| == 4
    ensures start == LittleEndian(p) && StartsAt(p, start)
  {
    LittleInverse(p);
    LittleBound(p);
    assert Pow256(0) == 1 && Pow256(1) == 0x100 && Pow256(2) == 0x1_0000 && Pow256(3) == 0x100_0000;
    start := LittleEndian(p);
  }

  lemma BranchReaches(i: nat, c: Spec, s: Bytes, maximum: nat, settings: Settings, foreign: ForeignDecoder)
    returns (input: Bytes)
    requires IsFilter(c.method_) && !c.method_.Delta?
    requires PropertiesFit(c.method_, c.properties) && Encodable(c, settings) && Expects(c.expected, maximum, |s|)
    ensures DecodeCoder(i, c, [input], maximum, settings, foreign) == Ok(s)
  {
    hide DecodeCoder, F.Scan, Thumb.Scan, Ia64.Scan, LittleEndian, LittleBytes, F.PpcStep, F.SparcStep, F.ArmStep,
         F.Arm64Step;
    var p, e := c.properties, c.expected;
    var start := StartOf(p);
    assert c == Spec(c.method_, p, e);
    match c.method_
    case Ppc =>
      WordRoundTrips(i, p, start, s, e, maximum, settings, foreign);
      input := F.Scan(F.PpcStep, start, s, true, true);
    case Sparc =>
      WordRoundTrips(i, p, start, s, e, maximum, settings, foreign);
      input := F.Scan(F.SparcStep, start, s, true, true);
    case Arm =>
      ArmRoundTrip(i, p, start, s, e, maximum, settings, foreign);
      input := F.Scan(F.ArmStep, (start + 8) % F.WORDS, s, false, true);
    case Arm64 =>
      Arm64RoundTrip(i, p, start, s, e, maximum, settings, foreign);
      input := F.Scan(F.Arm64Step, start, s, false, true);
    case ArmThumb =>
      ThumbRoundTrip(i, p, start, s, e, maximum, settings, foreign);
      input := Thumb.Scan(start, 0, s, true);
    case Ia64 =>
      Ia64RoundTrip(i, p, start, s, e, maximum, settings, foreign);
      input := Ia64.Scan(start, 0, s, true);
  }

  /** Every byte string the limit allows is the output of any registered coder, from as many inputs as it takes. */
  lemma EveryOutput(i: nat, c: Spec, count: nat, s: Bytes, maximum: nat, settings: Settings, foreign: ForeignDecoder)
    returns (inputs: seq<Bytes>)
    requires !IsForeign(c.method_) && Registered(c, count, 1) && Encodable(c, settings)
    requires Expects(c.expected, maximum, |s|)
    ensures |inputs| == count && DecodeCoder(i, c, inputs, maximum, settings, foreign) == Ok(s)
  {
    hide DecodeCoder, LittleEndian, L.PropertiesFromByte, Z.Dictionary, J.Expand, J.Legal, J.Encode, R.CodeBytes;
    var p, e := c.properties, c.expected;
    assert c == Spec(c.method_, p, e);
    match c.method_
    case Copy =>
      CopyRoundTrip(i, s, e, maximum, settings, foreign);
      inputs := [s];
    case Lzma =>
      var input := LzmaReaches(i, c, s, maximum, settings, foreign);
      inputs := [input];
    case Lzma2 =>
      assert p == [p[0]];
      UncompressedRoundTrip(i, p[0], s, e, maximum, settings, foreign);
      inputs := [Lzma2Decoder.Uncompressed(s, true)];
    case Deflate64 =>
      StoredRoundTrip(i, s, e, maximum, settings, foreign);
      inputs := [Deflate64Stored.StoredChunks(s)];
    case Bcj2 =>
      J.UnconvertedExpands(s, 0);
      var code := J.Encode(J.Unconverted(s), 0, 0, J.Fresh());
      Bcj2RoundTrip(i, J.Unconverted(s), e, maximum, settings, foreign);
      inputs := [code.s.main, code.s.call, code.s.jump, R.CodeBytes(code.ds)];
    case Delta =>
      var d: nat := p[0] as int + 1;
      assert p == [d - 1];
      DeltaRoundTrip(i, d, s, e, maximum, settings, foreign);
      inputs := [Delta.Differences(s, d)];
    case _ =>
      var input := BranchReaches(i, c, s, maximum, settings, foreign);
      inputs := [input];
  }

  /** The output of a decoder for one input, if the limit and the declared size allow its length. */
  lemma SingleRuns(i: nat, c: Spec, input: Bytes, maximum: nat, settings: Settings, foreign: ForeignDecoder, s: Bytes)
    requires !IsForeign(c.method_) && !c.method_.Bcj2? && Single(c, input, maximum, settings) == Ok(s)
    requires PermitsUnknownOutput(c.method_) && Expects(c.expected, maximum, |s|)
    ensures DecodeCoder(i, c, [input], maximum, settings, foreign) == Ok(s)
  {
    hide Single;
  }

  lemma UncompressedRoundTrip(i: nat, property: byte, s: Bytes, expected: Option<nat>, maximum: nat, settings: Settings,
                              foreign: ForeignDecoder)
    requires property <= 40 && Expects(expected, maximum, |s|)
    ensures DecodeCoder(i, Spec(Lzma2, [property], expected), [Lzma2Decoder.Uncompressed(s, true)], maximum, settings,
                        foreign) == Ok(s)
  {
    hide Z.DecodeLzma2, Lzma2Decoder.Uncompressed, DecodeCoder;
    Lzma2Decoder.UncompressedInverts(s, property, expected, maximum);
    SingleRuns(i, Spec(Lzma2, [property], expected), Lzma2Decoder.Uncompressed(s, true), maximum, settings, foreign, s);
  }

  lemma StoredRoundTrip(i: nat, s: Bytes, expected: Option<nat>, maximum: nat, settings: Settings,
                        foreign: ForeignDecoder)
    requires settings.maxDictionary >= T.HISTORY && Expects(expected, maximum, |s|)
    ensures DecodeCoder(i, Spec(Deflate64, [], expected), [Deflate64Stored.StoredChunks(s)], maximum, settings, foreign)
         == Ok(s)
  {
    hide D.DecodeDeflate64, Deflate64Stored.StoredChunks, DecodeCoder;
    Deflate64Stored.StoredInverse(s, expected, maximum, settings.maxDictionary);
    SingleRuns(i, Spec(Deflate64, [], expected), Deflate64Stored.StoredChunks(s), maximum, settings, foreign, s);
  }
}
