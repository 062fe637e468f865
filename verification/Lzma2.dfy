/** The LZMA2 chunk automaton. */
module Lzma2 {
  import opened Prelude
  import opened LzmaRange
  import opened LzmaOperations
  import opened LzmaStream

  /** The state between two chunks. The dictionary start is the only trace of a dictionary reset. */
  datatype State = State(out: seq<byte>, start: nat, m: Option<Model>, needsReset: bool, needsProperties: bool)

  predicate StateOk(s: State) {
    && (s.m.Some? ==> ModelOk(s.m.value))
    && (s.m.None? ==> s.needsProperties)
  }

  /** The output bounds of a stream: its limit, its dictionary size, and its declared size if any. */
  datatype Bounds = Bounds(maximum: nat, dictionary: nat, expected: Option<nat>)

  function Window(s: State, w: Bounds): Limits {
    Limits(w.maximum, w.dictionary, s.start)
  }

  const INITIAL: State := State([], 0, None, true, true)

  function Pair(high: byte, low: byte): (n: nat)
    ensures n < 0x1_0000
  {
    0x100 * high as int + low as int
  }

  /** A control byte of 1, or of 0xe0 and above, starts a new dictionary; the first chunk has to. */
  function Enter(s: State, control: byte): (x: Result<State>)
    requires StateOk(s)
    ensures x.Ok? ==> StateOk(x.value) && !x.value.needsReset && x.value.out == s.out
  {
    if control >= 0xe0 || control == 1 then Ok(s.(start := |s.out|, needsReset := false, needsProperties := true))
    else if s.needsReset then Err(Format)
    else Ok(s)
  }

  /** The model a compressed chunk decodes with, and the input after its property byte. */
  function Select(s: State, control: byte, rest: seq<byte>): (x: Result<(Model, seq<byte>)>)
    requires StateOk(s)
    ensures x.Ok? ==> ModelOk(x.value.0) && |x.value.1| <= |rest|
  {
    if control >= 0xc0 then
      if rest == [] then Err(Format)
      else
        var p :- PropertiesFromByte(rest[0]);
        Ok((FreshModel(p.lc, p.lp, p.pb), rest[1..]))
    else if s.needsProperties then Err(Format)
    else
      var m := s.m.value;
      Ok((if control >= 0xa0 then FreshModel(m.lc, m.lp, m.pb) else m, rest))
  }

  datatype Step = Step(s: State, rest: seq<byte>)

  function PackedStep(s: State, w: Bounds, control: byte, rest: seq<byte>): (x: Result<Step>)
    requires StateOk(s) && control >= 0x80
    ensures x.Ok? ==> StateOk(x.value.s) && |x.value.rest| < |rest|
  {
    hide ModelOk, FreshModel, PropertiesFromByte, DecodeStream;
    if |rest| < 4 then Err(Format)
    else
      var unpacked := control % 0x20 * 0x1_0000 + Pair(rest[0], rest[1]) + 1;
      var packed := Pair(rest[2], rest[3]) + 1;
      var (m, tail) :- Select(s, control, rest[4..]);
      if packed > |tail| then Err(Format)
      else
        var e :- DecodeStream(m, tail[..packed], s.out, Window(s, w), Some(unpacked), false);
        var s' := s.(out := e.out, m := Some(e.m), needsProperties := s.needsProperties && control < 0xc0);
        Ok(Step(s', tail[packed..]))
  }

  function RawStep(s: State, w: Bounds, rest: seq<byte>): (x: Result<Step>)
    requires StateOk(s)
    ensures x.Ok? ==> StateOk(x.value.s) && |x.value.rest| < |rest|
  {
    if |rest| < 2 then Err(Format)
    else
      var size := Pair(rest[0], rest[1]) + 1;
      if size > |rest| - 2 then Err(Format)
      else if |s.out| + size > w.maximum then Err(LimitExceeded)
      else Ok(Step(s.(out := s.out + rest[2..][..size]), rest[2 + size..]))
  }

  function ChunkStep(s: State, w: Bounds, control: byte, rest: seq<byte>): (x: Result<Step>)
    requires StateOk(s)
    ensures x.Ok? ==> StateOk(x.value.s) && |x.value.rest| < |rest|
  {
    var s' :- Enter(s, control);
    if control >= 0x80 then PackedStep(s', w, control, rest)
    else if control <= 2 then RawStep(s', w, rest)
    else Err(Format)
  }

  /** The loop of `decode_lzma2`; every chunk consumes input. */
  function RunChunks(s: State, w: Bounds, rest: seq<byte>): Result<seq<byte>>
    requires StateOk(s)
    decreases |rest|
  {
    if rest == [] then Err(Format)
    else if rest[0] == 0 then
      if |rest| > 1 || (w.expected.Some? && w.expected.value != |s.out|) then Err(Format) else Ok(s.out)
    else
      var x :- ChunkStep(s, w, rest[0], rest[1..]);
      if w.expected.Some? && |x.s.out| > w.expected.value then Err(Format) else RunChunks(x.s, w, x.rest)
  }

  /** Forty-one dictionary sizes, from 4 KiB to 4 GiB. */
  function Dictionary(properties: seq<byte>): (d: Result<nat>)
    ensures d.Ok? <==> |properties| == 1 && properties[0] <= 40
    ensures d.Ok? ==> 0x1000 <= d.value <= 0x1_0000_0000
  {
    hide Pow2;
    if |properties| != 1 || properties[0] > 40 then Err(Format)
    else
      DictionarySize(properties[0]);
      Ok((2 + properties[0] % 2) * Pow2(properties[0] / 2 + 11))
  }

  lemma Powers()
    ensures Pow2(11) == 0x800 && Pow2(30) == 0x4000_0000 && Pow2(31) == 0x8000_0000
  {
    Pow2Sum(15, 15);
    assert Pow2(11) == 0x800 && Pow2(15) == 0x8000;
  }

  lemma DictionarySize(p: nat)
    requires p <= 40
    ensures 0x1000 <= (2 + p % 2) * Pow2(p / 2 + 11) <= 0x1_0000_0000
  {
    var n := p / 2 + 11;
    Pow2Order(11, n);
    Pow2Order(n, if p == 40 then 31 else 30);
    Powers();
    hide Pow2;
    var size := Pow2(n);
    if p % 2 == 1 {
      assert (2 + p % 2) * size == 3 * size;
    } else {
      assert (2 + p % 2) * size == 2 * size;
    }
  }

  /** The first two sizes and the last. */
  lemma DictionaryEnds()
    ensures Dictionary([0]) == Ok(0x1000) && Dictionary([1]) == Ok(0x1800) && Dictionary([40]) == Ok(0x1_0000_0000)
  {
    Powers();
  }

  /** Every second size doubles. */
  lemma DictionaryDoubles(p: nat)
    requires p <= 38
    ensures Dictionary([p + 2]).value == 2 * Dictionary([p]).value
  {
    assert Pow2((p + 2) / 2 + 11) == 2 * Pow2(p / 2 + 11);
    hide Pow2;
    var size := Pow2(p / 2 + 11);
    assert (2 + p % 2) * (2 * size) == 2 * ((2 + p % 2) * size);
  }

  /** So no two property bytes share a size, and sizes grow with the byte. */
  lemma {:induction false} DictionaryGrows(p: nat, q: nat)
    requires p < q <= 40
    ensures Dictionary([p]).value < Dictionary([q]).value
    decreases q
  {
    hide Dictionary;
    if q >= p + 2 {
      DictionaryGrows(p, q - 1);
    }
    NextSize(q - 1);
  }

  lemma NextSize(p: nat)
    requires p < 40
    ensures Dictionary([p]).value < Dictionary([p + 1]).value
  {
    assert p % 2 == 1 ==> Pow2((p + 1) / 2 + 11) == 2 * Pow2(p / 2 + 11);
    hide Pow2;
    var size := Pow2(p / 2 + 11);
    assert (2 + p % 2) * size == if p % 2 == 1 then 3 * size else 2 * size;
  }

  function DecodeLzma2(input: seq<byte>, properties: seq<byte>, expected: Option<nat>, maximum: nat)
    : Result<seq<byte>>
  {
    var dictionary :- Dictionary(properties);
    if expected.Some? && expected.value > maximum then Err(LimitExceeded)
    else RunChunks(INITIAL, Bounds(maximum, dictionary, expected), input)
  }

  // ---- writing chunks ----

  datatype Reset = Continue | ResetState | NewProperties(p: Properties, dictionary: bool)

  /** A chunk as an encoder sees it: bytes as they are, or choices with a stream that carries them. */
  datatype Chunk =
    | Raw(reset: bool, data: seq<byte>)
    | Packed(kind: Reset, cs: seq<Choice>, stream: seq<byte>)

  function StartsDictionary(c: Chunk): bool {
    match c
    case Raw(reset, _) => reset
    case Packed(kind, _, _) => kind.NewProperties? && kind.dictionary
  }

  function Entered(s: State, c: Chunk): State {
    if StartsDictionary(c) then s.(start := |s.out|, needsReset := false, needsProperties := true) else s
  }

  predicate KindOk(s: State, kind: Reset) {
    match kind
    case NewProperties(p, _) => p.lc + p.lp <= 4 && p.pb <= 4
    case _ => !s.needsProperties && s.m.Some?
  }

  function Starting(s: State, kind: Reset): (m: Model)
    requires StateOk(s) && KindOk(s, kind)
    ensures ModelOk(m)
  {
    match kind
    case Continue => s.m.value
    case ResetState => FreshModel(s.m.value.lc, s.m.value.lp, s.m.value.pb)
    case NewProperties(p, _) => FreshModel(p.lc, p.lp, p.pb)
  }

  /** The chunk fits the format here, its stream carries its choices, and its output stays within bounds. */
  ghost predicate ChunkOk(s: State, w: Bounds, c: Chunk)
    requires StateOk(s)
  {
    var s' := Entered(s, c);
    && !s'.needsReset
    && match c
       case Raw(_, data) => 1 <= |data| <= 0x1_0000 && |s.out| + |data| <= Ceiling(w)
       case Packed(kind, cs, stream) => KindOk(s', kind) && PackedOk(s', w, Starting(s', kind), cs, stream)
  }

  function Ceiling(w: Bounds): nat {
    if w.expected.Some? then Min(w.expected.value, w.maximum) else w.maximum
  }

  ghost predicate PackedOk(s: State, w: Bounds, m: Model, cs: seq<Choice>, stream: seq<byte>)
    requires ModelOk(m)
  {
    && |m.reps| == 4
    && AllAllowed(m.reps, s.out, Window(s, w), cs)
    && 1 <= |Expand(m.reps, s.out, Window(s, w), cs)| - |s.out| <= 0x20_0000
    && |Expand(m.reps, s.out, Window(s, w), cs)| <= Ceiling(w)
    && 1 <= |stream| <= 0x1_0000
    && Carries(stream, Code(m, s.out, Window(s, w), cs).ds)
  }

  /** The state after a chunk: its data, or the expansion of its choices, appended. */
  ghost function After(s: State, w: Bounds, c: Chunk): (s': State)
    requires StateOk(s) && ChunkOk(s, w, c)
    ensures StateOk(s')
  {
    hide ModelOk, FreshModel, Carries;
    var e := Entered(s, c);
    match c
    case Raw(_, data) => e.(out := e.out + data)
    case Packed(kind, cs, _) =>
      var m := Starting(e, kind);
      e.(out := Expand(m.reps, e.out, Window(e, w), cs), m := Some(Code(m, e.out, Window(e, w), cs).m),
         needsProperties := false)
  }

  function Split(n: nat): (s: seq<byte>)
    requires n < 0x1_0000
    ensures |s| == 2
  {
    [n / 0x100, n % 0x100]
  }

  function Control(kind: Reset): byte {
    match kind
    case Continue => 0x80
    case ResetState => 0xa0
    case NewProperties(_, dictionary) => if dictionary then 0xe0 else 0xc0
  }

  /** The lengths and properties of a chunk fit its header fields. */
  predicate Printable(c: Chunk, size: nat) {
    && 1 <= size <= 0x20_0000
    && match c
       case Raw(_, data) => 1 <= |data| <= 0x1_0000
       case Packed(kind, _, stream) =>
         1 <= |stream| <= 0x1_0000 && (kind.NewProperties? ==> kind.p.lc + kind.p.lp <= 4 && kind.p.pb <= 4)
  }

  /** The bytes of a chunk that produces `size` bytes. */
  function Print(c: Chunk, size: nat): seq<byte>
    requires Printable(c, size)
  {
    match c
    case Raw(reset, data) => [if reset then 1 else 2] + Split(|data| - 1) + data
    case Packed(kind, _, stream) =>
      var control: int := Control(kind) as int + (size - 1) / 0x1_0000;
      [control] + Split((size - 1) % 0x1_0000) + Split(|stream| - 1)
      + (if kind.NewProperties? then [PropertyByte(kind.p)] else []) + stream
  }

  ghost predicate AllOk(s: State, w: Bounds, chunks: seq<Chunk>)
    requires StateOk(s)
    decreases |chunks|
  {
    chunks == [] || (ChunkOk(s, w, chunks[0]) && AllOk(After(s, w, chunks[0]), w, chunks[1..]))
  }

  ghost function PrintAll(s: State, w: Bounds, chunks: seq<Chunk>): seq<byte>
    requires StateOk(s) && AllOk(s, w, chunks)
    decreases |chunks|
  {
    if chunks == [] then [0]
    else
      var s' := After(s, w, chunks[0]);
      ChunkGrows(s, w, chunks[0]);
      Print(chunks[0], |s'.out| - |s.out|) + PrintAll(s', w, chunks[1..])
  }

  lemma ChunkGrows(s: State, w: Bounds, c: Chunk)
    requires StateOk(s) && ChunkOk(s, w, c)
    ensures 1 <= |After(s, w, c).out| - |s.out|
    ensures Printable(c, |After(s, w, c).out| - |s.out|)
    ensures |After(s, w, c).out| <= Ceiling(w)
  {
    hide ModelOk, FreshModel, Carries, AllAllowed, Expand, Code;
  }

  /** What all the chunks produce. */
  ghost function Produced(s: State, w: Bounds, chunks: seq<Chunk>): seq<byte>
    requires StateOk(s) && AllOk(s, w, chunks)
    decreases |chunks|
  {
    if chunks == [] then s.out else Produced(After(s, w, chunks[0]), w, chunks[1..])
  }

  lemma SplitPair(n: nat)
    requires n < 0x1_0000
    ensures Pair(Split(n)[0], Split(n)[1]) == n
  {
  }

  /** Bytes that decode as the chunk and leave `more`. */
  ghost predicate ReadsBack(s: State, w: Bounds, c: Chunk, p: seq<byte>, more: seq<byte>)
    requires StateOk(s) && ChunkOk(s, w, c)
  {
    p != [] && p[0] != 0 && ChunkStep(s, w, p[0], p[1..]) == Ok(Step(After(s, w, c), more))
  }

  lemma RawInverts(s: State, w: Bounds, c: Chunk, size: nat, more: seq<byte>)
    requires StateOk(s) && c.Raw? && ChunkOk(s, w, c) && Printable(c, size)
    ensures ReadsBack(s, w, c, Print(c, size) + more, more)
  {
    hide ModelOk;
    var data := c.data;
    var p := Print(c, size) + more;
    assert p[1..][2..] == data + more && p[1..][2 + |data|..] == more;
    assert (data + more)[..|data|] == data;
    SplitPair(|data| - 1);
    assert p[1] == Split(|data| - 1)[0] && p[2] == Split(|data| - 1)[1];
  }

  /** The layout of a compressed chunk, as the decoder takes it apart. */
  lemma PackedLayout(c: Chunk, size: nat, more: seq<byte>)
    requires c.Packed? && Printable(c, size)
    ensures Print(c, size) != []
    ensures var p := Print(c, size) + more;
            var rest := p[1..];
            && Control(c.kind) <= p[0] < Control(c.kind) + 0x20 && |rest| >= 4
            && p[0] % 0x20 * 0x1_0000 + Pair(rest[0], rest[1]) + 1 == size
            && Pair(rest[2], rest[3]) + 1 == |c.stream|
            && (if c.kind.NewProperties?
                then |rest| >= 5 && rest[4] == PropertyByte(c.kind.p) && rest[4..][1..] == c.stream + more
                else rest[4..] == c.stream + more)
  {
    hide PropertyByte, Pair, Split;
    SizeDigits(Control(c.kind), size);
    SplitPair((size - 1) % 0x1_0000);
    SplitPair(|c.stream| - 1);
    hide Control;
    var p := Print(c, size) + more;
    var a, b := Split((size - 1) % 0x1_0000), Split(|c.stream| - 1);
    assert p[0] == Control(c.kind) as int + (size - 1) / 0x1_0000;
    assert p[1..] == a + b + (if c.kind.NewProperties? then [PropertyByte(c.kind.p)] else []) + c.stream + more;
    PackedTail(a, b, if c.kind.NewProperties? then [PropertyByte(c.kind.p)] else [], c.stream + more, p[1..]);
  }

  lemma SizeDigits(control: nat, size: nat)
    requires control % 0x20 == 0 && 1 <= size <= 0x20_0000
    ensures var high := (size - 1) / 0x1_0000;
            high < 0x20 && (control + high) % 0x20 * 0x1_0000 + (size - 1) % 0x1_0000 + 1 == size
  {
  }

  lemma PackedTail(a: seq<byte>, b: seq<byte>, property: seq<byte>, more: seq<byte>, rest: seq<byte>)
    requires |a| == 2 && |b| == 2 && |property| <= 1 && rest == a + b + property + more
    ensures rest[0] == a[0] && rest[1] == a[1] && rest[2] == b[0] && rest[3] == b[1]
    ensures rest[4..] == property + more
    ensures property != [] ==> rest[4] == property[0] && rest[4..][1..] == more
  {
  }

  /** Entering and selecting read the control byte as it was written. */
  lemma SelectInverts(s: State, c: Chunk, control: byte, rest: seq<byte>)
    requires StateOk(s) && c.Packed? && Control(c.kind) <= control < Control(c.kind) + 0x20
    requires !Entered(s, c).needsReset && KindOk(Entered(s, c), c.kind)
    requires c.kind.NewProperties? ==> rest != [] && rest[0] == PropertyByte(c.kind.p)
    ensures Enter(s, control) == Ok(Entered(s, c))
    ensures Select(Entered(s, c), control, rest)
         == Ok((Starting(Entered(s, c), c.kind), if c.kind.NewProperties? then rest[1..] else rest))
  {
    hide ModelOk, FreshModel, PropertyByte, PropertiesFromByte;
    if c.kind.NewProperties? {
      PropertiesInverse(rest[0], c.kind.p);
    }
  }

  lemma PackedDecodes(s: State, w: Bounds, m: Model, cs: seq<Choice>, stream: seq<byte>)
    requires ModelOk(m) && PackedOk(s, w, m, cs, stream)
    ensures |m.reps| == 4 && AllAllowed(m.reps, s.out, Window(s, w), cs)
    ensures var all := Expand(m.reps, s.out, Window(s, w), cs);
            && |all| >= |s.out|
            && DecodeStream(m, stream, s.out, Window(s, w), Some(|all| - |s.out|), false)
            == Ok(Ended(Code(m, s.out, Window(s, w), cs).m, all))
  {
    hide ModelOk, Carries, AllAllowed, Expand, Code, DecodeStream;
    StreamInverts(m, stream, s.out, Window(s, w), cs, false);
  }

  lemma PackedStepInverts(s: State, w: Bounds, control: byte, rest: seq<byte>, m: Model, cs: seq<Choice>,
                          stream: seq<byte>, more: seq<byte>)
    requires StateOk(s) && control >= 0x80 && ModelOk(m) && PackedOk(s, w, m, cs, stream) && |rest| >= 4
    requires Select(s, control, rest[4..]) == Ok((m, stream + more))
    requires Pair(rest[2], rest[3]) + 1 == |stream|
    requires control % 0x20 * 0x1_0000 + Pair(rest[0], rest[1]) + 1
          == |Expand(m.reps, s.out, Window(s, w), cs)| - |s.out|
    ensures |m.reps| == 4 && AllAllowed(m.reps, s.out, Window(s, w), cs)
    ensures PackedStep(s, w, control, rest)
         == Ok(Step(s.(out := Expand(m.reps, s.out, Window(s, w), cs), m := Some(Code(m, s.out, Window(s, w), cs).m),
                       needsProperties := s.needsProperties && control < 0xc0), more))
  {
    hide ModelOk, AllAllowed, Expand, Code, DecodeStream, Pair, Select, Carries;
    PackedDecodes(s, w, m, cs, stream);
    assert (stream + more)[..|stream|] == stream && (stream + more)[|stream|..] == more;
  }

  /** What a legal compressed chunk leaves behind. */
  lemma AfterPacked(s: State, w: Bounds, c: Chunk)
    requires StateOk(s) && c.Packed? && ChunkOk(s, w, c)
    ensures var e := Entered(s, c);
            && StateOk(e) && !e.needsReset && KindOk(e, c.kind)
            && PackedOk(e, w, Starting(e, c.kind), c.cs, c.stream) && e.out == s.out
    ensures var e, m := Entered(s, c), Starting(Entered(s, c), c.kind);
            && |m.reps| == 4 && AllAllowed(m.reps, e.out, Window(e, w), c.cs)
            && After(s, w, c) == e.(out := Expand(m.reps, e.out, Window(e, w), c.cs),
                                    m := Some(Code(m, e.out, Window(e, w), c.cs).m), needsProperties := false)
  {
    hide ModelOk, FreshModel, Carries, AllAllowed, Expand, Code;
  }

  lemma PropertiesSettled(s: State, kind: Reset, control: byte)
    requires KindOk(s, kind) && Control(kind) <= control < Control(kind) + 0x20
    ensures control >= 0x80 && !(s.needsProperties && control < 0xc0)
  {
  }

  lemma PackedInverts(s: State, w: Bounds, c: Chunk, size: nat, more: seq<byte>)
    requires StateOk(s) && c.Packed? && ChunkOk(s, w, c)
    requires Printable(c, size) && size == |After(s, w, c).out| - |s.out|
    ensures ReadsBack(s, w, c, Print(c, size) + more, more)
  {
    hide ModelOk, FreshModel, PackedOk, AllAllowed, Expand, Code, Print, PackedStep, Pair, Select, Enter, PropertyByte;
    hide StateOk, ChunkOk, After, Entered, Starting, KindOk, Window, Control, Printable, RawStep, Ceiling;
    AfterPacked(s, w, c);
    var p := Print(c, size) + more;
    PackedLayout(c, size, more);
    var rest := p[1..];
    SelectInverts(s, c, p[0], rest[4..]);
    var e := Entered(s, c);
    PropertiesSettled(e, c.kind, p[0]);
    PackedStepInverts(e, w, p[0], rest, Starting(e, c.kind), c.cs, c.stream, more);
  }

  /** Decoding the printed chunks gives what they produce. */
  lemma {:induction false} ChunksInvert(s: State, w: Bounds, chunks: seq<Chunk>)
    requires StateOk(s) && AllOk(s, w, chunks)
    requires w.expected.Some? ==> w.expected.value == |Produced(s, w, chunks)|
    ensures RunChunks(s, w, PrintAll(s, w, chunks)) == Ok(Produced(s, w, chunks))
    decreases |chunks|
  {
    hide StateOk, ChunkOk, After, Print, Printable, ChunkStep;
    if chunks != [] {
      var c := chunks[0];
      var s' := After(s, w, c);
      ChunkGrows(s, w, c);
      var more := PrintAll(s', w, chunks[1..]);
      if c.Raw? {
        RawInverts(s, w, c, |s'.out| - |s.out|, more);
      } else {
        PackedInverts(s, w, c, |s'.out| - |s.out|, more);
      }
      ChunksInvert(s', w, chunks[1..]);
    }
  }

  /** Every list of chunks an encoder may write round-trips, with its size declared or not. */
  lemma Lzma2Inverts(property: byte, chunks: seq<Chunk>, maximum: nat, expected: Option<nat>)
    requires property <= 40
    requires var w := Bounds(maximum, Dictionary([property]).value, expected);
             && AllOk(INITIAL, w, chunks)
             && (expected.Some? ==> expected.value == |Produced(INITIAL, w, chunks)| <= maximum)
    ensures var w := Bounds(maximum, Dictionary([property]).value, expected);
            DecodeLzma2(PrintAll(INITIAL, w, chunks), [property], expected, maximum) == Ok(Produced(INITIAL, w, chunks))
  {
    hide RunChunks, AllOk, PrintAll, Produced, Dictionary;
    ChunksInvert(INITIAL, Bounds(maximum, Dictionary([property]).value, expected), chunks);
  }
}
