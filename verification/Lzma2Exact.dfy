/** What the LZMA2 decoder accepts is a list of chunks an encoder may write: the converse of its round trip. */
module Lzma2Exact {
  import opened Prelude
  import opened LzmaRange
  import opened LzmaOperations
  import opened LzmaStream
  import opened Lzma2
  import E = LzmaExact

  /** The bytes of a legal chunk. */
  ghost function Bytes(s: State, w: Bounds, c: Chunk): seq<byte>
    requires StateOk(s) && ChunkOk(s, w, c)
  {
    hide StateOk, ChunkOk, After, Printable;
    ChunkGrows(s, w, c);
    Print(c, |After(s, w, c).out| - |s.out|)
  }

  /** `rest` is the chunk `c` in front of `x.rest`, and `x.s` is the state after it. */
  ghost predicate ChunkRead(s: State, w: Bounds, rest: seq<byte>, c: Chunk, x: Step)
    requires StateOk(s)
  {
    ChunkOk(s, w, c) && After(s, w, c) == x.s && rest == Bytes(s, w, c) + x.rest
  }

  lemma RawRead(s: State, w: Bounds, control: byte, rest: seq<byte>) returns (c: Chunk)
    requires StateOk(s) && 1 <= control <= 2 && ChunkStep(s, w, control, rest).Ok?
    requires |ChunkStep(s, w, control, rest).value.s.out| <= Ceiling(w)
    ensures ChunkRead(s, w, [control] + rest, c, ChunkStep(s, w, control, rest).value)
  {
    hide ModelOk;
    var size := Pair(rest[0], rest[1]) + 1;
    var data := rest[2..][..size];
    c := Raw(control == 1, data);
    PairSplit(rest[0], rest[1]);
    assert rest == Split(size - 1) + data + rest[2 + size..];
  }

  lemma PairSplit(high: byte, low: byte)
    ensures Split(Pair(high, low)) == [high, low]
  {
  }

  /** The kind of a compressed chunk, from its control byte and its property byte. */
  lemma KindRead(s: State, control: byte, rest: seq<byte>) returns (kind: Reset)
    requires StateOk(s) && control >= 0x80 && Enter(s, control).Ok?
    requires Select(Enter(s, control).value, control, rest).Ok?
    ensures var e := Enter(s, control).value;
            && Control(kind) <= control < Control(kind) + 0x20 && Control(kind) % 0x20 == 0
            && (kind.NewProperties? && kind.dictionary <==> control >= 0xe0)
            && KindOk(e, kind)
            && var (m, tail) := Select(e, control, rest).value;
               && m == Starting(e, kind)
               && (if kind.NewProperties? then [PropertyByte(kind.p)] else []) + tail == rest
    ensures !(Enter(s, control).value.needsProperties && control < 0xc0)
  {
    hide ModelOk, FreshModel, PropertyByte, PropertiesFromByte;
    if control >= 0xc0 {
      kind := NewProperties(PropertiesFromByte(rest[0]).value, control >= 0xe0);
      PropertiesInverse(rest[0], kind.p);
    } else {
      kind := if control >= 0xa0 then ResetState else Continue;
    }
  }

  /** The header fields say how long the parts are. */
  lemma HeaderRead(control: byte, kind: Reset, rest: seq<byte>, tail: seq<byte>, cs: seq<Choice>)
    requires Control(kind) <= control < Control(kind) + 0x20 && Control(kind) % 0x20 == 0 && |rest| >= 4
    requires kind.NewProperties? ==> kind.p.lc + kind.p.lp <= 4 && kind.p.pb <= 4
    requires (if kind.NewProperties? then [PropertyByte(kind.p)] else []) + tail == rest[4..]
    requires Pair(rest[2], rest[3]) + 1 <= |tail|
    ensures var packed := Pair(rest[2], rest[3]) + 1;
            var size := control % 0x20 * 0x1_0000 + Pair(rest[0], rest[1]) + 1;
            var c := Packed(kind, cs, tail[..packed]);
            Printable(c, size) && [control] + rest == Print(c, size) + tail[packed..]
  {
    hide PropertyByte, Split, Pair, Control;
    var packed := Pair(rest[2], rest[3]) + 1;
    var size := control % 0x20 * 0x1_0000 + Pair(rest[0], rest[1]) + 1;
    PairSplit(rest[0], rest[1]);
    PairSplit(rest[2], rest[3]);
    SizeParts(control, Control(kind), Pair(rest[0], rest[1]));
    assert tail == tail[..packed] + tail[packed..];
    assert rest == [rest[0], rest[1]] + [rest[2], rest[3]] + rest[4..];
  }

  lemma SizeParts(control: byte, base: byte, low: nat)
    requires base <= control < base as int + 0x20 && base % 0x20 == 0 && low < 0x1_0000
    ensures var size := control % 0x20 * 0x1_0000 + low + 1;
            1 <= size <= 0x20_0000 && control == base as int + (size - 1) / 0x1_0000 && (size - 1) % 0x1_0000 == low
  {
  }

  lemma PackedRead(s: State, w: Bounds, control: byte, rest: seq<byte>) returns (c: Chunk)
    requires StateOk(s) && control >= 0x80 && ChunkStep(s, w, control, rest).Ok?
    requires |ChunkStep(s, w, control, rest).value.s.out| <= Ceiling(w)
    ensures ChunkRead(s, w, [control] + rest, c, ChunkStep(s, w, control, rest).value)
  {
    hide ModelOk, FreshModel, AllAllowed, Expand, Code, DecodeStream, Pair, Select, Print, PropertyByte;
    var e := Enter(s, control).value;
    var kind := KindRead(s, control, rest[4..]);
    var (m, tail) := Select(e, control, rest[4..]).value;
    var packed, n := Pair(rest[2], rest[3]) + 1, control % 0x20 * 0x1_0000 + Pair(rest[0], rest[1]) + 1;
    var stream := tail[..packed];
    var x := DecodeStream(m, stream, e.out, Window(e, w), Some(n), false).value;
    E.StreamExact(m, stream, e.out, Window(e, w), n, false, x);
    var cs :| E.CarriedTo(m, stream, e.out, Window(e, w), cs, x);
    c := Packed(kind, cs, stream);
    HeaderRead(control, kind, rest, tail, cs);
    assert e == Entered(s, c);
  }

  /** Bytes that decode as chunks are chunks. */
  lemma {:induction false} ChunksExact(s: State, w: Bounds, rest: seq<byte>) returns (chunks: seq<Chunk>)
    requires StateOk(s) && RunChunks(s, w, rest).Ok?
    ensures AllOk(s, w, chunks) && PrintAll(s, w, chunks) == rest
    ensures RunChunks(s, w, rest).value == Produced(s, w, chunks)
    ensures w.expected.Some? ==> w.expected.value == |Produced(s, w, chunks)|
    decreases |rest|
  {
    hide StateOk, ChunkOk, After, Print, Printable, ChunkStep;
    if rest[0] == 0 {
      chunks := [];
      assert rest == [0];
    } else {
      var x := ChunkStep(s, w, rest[0], rest[1..]).value;
      var c := FirstRead(s, w, rest);
      var tail := ChunksExact(x.s, w, x.rest);
      chunks := [c] + tail;
      assert chunks[1..] == tail;
    }
  }

  lemma FirstRead(s: State, w: Bounds, rest: seq<byte>) returns (c: Chunk)
    requires StateOk(s) && rest != [] && rest[0] != 0 && ChunkStep(s, w, rest[0], rest[1..]).Ok?
    requires var x := ChunkStep(s, w, rest[0], rest[1..]).value; w.expected.Some? ==> |x.s.out| <= w.expected.value
    ensures ChunkRead(s, w, rest, c, ChunkStep(s, w, rest[0], rest[1..]).value)
  {
    hide StateOk, ChunkRead, ChunkStep;
    StepBelow(s, w, rest[0], rest[1..]);
    assert [rest[0]] + rest[1..] == rest;
    if rest[0] >= 0x80 {
      c := PackedRead(s, w, rest[0], rest[1..]);
    } else {
      c := RawRead(s, w, rest[0], rest[1..]);
    }
  }

  /** A chunk stays below the output limit. */
  lemma StepBelow(s: State, w: Bounds, control: byte, rest: seq<byte>)
    requires StateOk(s) && ChunkStep(s, w, control, rest).Ok?
    ensures |ChunkStep(s, w, control, rest).value.s.out| <= w.maximum
    ensures 1 <= control <= 2 || control >= 0x80 || control == 0
  {
    hide ModelOk, FreshModel, PropertiesFromByte, Run, Pair, Select, Start;
  }

  /** The chunks, as bytes, produce `out`. */
  ghost predicate WrittenAs(input: seq<byte>, w: Bounds, chunks: seq<Chunk>, out: seq<byte>) {
    AllOk(INITIAL, w, chunks) && PrintAll(INITIAL, w, chunks) == input && Produced(INITIAL, w, chunks) == out
  }

  /** An input decodes to `out` if and only if it is the bytes of some legal chunks that produce `out`. */
  lemma Lzma2Exact(input: seq<byte>, property: byte, expected: Option<nat>, maximum: nat, out: seq<byte>)
    requires property <= 40
    ensures DecodeLzma2(input, [property], expected, maximum) == Ok(out) <==>
              && (expected.Some? ==> expected.value == |out| <= maximum)
              && exists chunks :: WrittenAs(input, Bounds(maximum, Dictionary([property]).value, expected), chunks, out)
  {
    hide RunChunks, AllOk, PrintAll, Produced, Dictionary;
    var w := Bounds(maximum, Dictionary([property]).value, expected);
    if DecodeLzma2(input, [property], expected, maximum) == Ok(out) {
      var chunks := ChunksExact(INITIAL, w, input);
      assert WrittenAs(input, w, chunks, out);
    }
    if expected.Some? ==> expected.value == |out| <= maximum {
      if chunks :| WrittenAs(input, w, chunks, out) {
        Lzma2Inverts(property, chunks, maximum, expected);
      }
    }
  }

  // ---- no other list of chunks ----

  /** The bytes of a legal chunk decode to it, and so determine the state after it and where they end. */
  lemma ReadBack(s: State, w: Bounds, c: Chunk, more: seq<byte>)
    requires StateOk(s) && ChunkOk(s, w, c)
    ensures ReadsBack(s, w, c, Bytes(s, w, c) + more, more)
  {
    hide StateOk, ChunkOk, After, Print, Printable, ReadsBack;
    ChunkGrows(s, w, c);
    var size := |After(s, w, c).out| - |s.out|;
    if c.Raw? {
      RawInverts(s, w, c, size, more);
    } else {
      PackedInverts(s, w, c, size, more);
    }
  }

  /** The parts of the layout can be read off the bytes. */
  lemma PrintUnique(c: Chunk, c': Chunk, size: nat)
    requires Printable(c, size) && Printable(c', size) && Print(c, size) == Print(c', size)
    ensures c.Raw? ==> c == c'
    ensures c.Packed? ==> c'.Packed? && c.kind == c'.kind && c.stream == c'.stream
  {
    hide PropertyByte, Pair, Split;
    var p := Print(c, size);
    assert p == Print(c, size) + [] && p == Print(c', size) + [];
    if c'.Packed? { PackedLayout(c', size, []); }
    if c.Raw? {
      assert p[0] == if c.reset then 1 else 2;
      assert c'.Raw? && p[0] == if c'.reset then 1 else 2;
      assert p[3..] == c.data && p[3..] == c'.data;
    } else {
      PackedLayout(c, size, []);
      assert c'.Packed? && Control(c.kind) == Control(c'.kind);
      if c.kind.NewProperties? {
        PropertiesInverse(p[5], c.kind.p);
        PropertiesInverse(p[5], c'.kind.p);
      }
      assert c.stream + [] == c.stream && c'.stream + [] == c'.stream;
    }
  }

  /** Two legal chunks that begin the same bytes are the same. */
  lemma ChunkUnique(s: State, w: Bounds, c: Chunk, more: seq<byte>, c': Chunk, more': seq<byte>)
    requires StateOk(s) && ChunkOk(s, w, c) && ChunkOk(s, w, c')
    requires Bytes(s, w, c) + more == Bytes(s, w, c') + more'
    ensures c == c' && more == more'
  {
    hide StateOk, ChunkOk, After, Print, Printable, ChunkStep;
    ReadBack(s, w, c, more);
    ReadBack(s, w, c', more');
    var p, p' := Bytes(s, w, c), Bytes(s, w, c');
    assert p == (p + more)[..|p + more| - |more|] && p' == (p' + more)[..|p' + more| - |more|];
    ChunkGrows(s, w, c);
    ChunkGrows(s, w, c');
    PrintUnique(c, c', |After(s, w, c).out| - |s.out|);
    if c.Packed? {
      ChoicesUnique(s, w, c, c');
    }
  }

  lemma ChoicesUnique(s: State, w: Bounds, c: Chunk, c': Chunk)
    requires StateOk(s) && ChunkOk(s, w, c) && ChunkOk(s, w, c') && c.Packed? && c'.Packed?
    requires c.kind == c'.kind && c.stream == c'.stream && After(s, w, c) == After(s, w, c')
    ensures c == c'
  {
    AfterPacked(s, w, c);
    AfterPacked(s, w, c');
    hide ModelOk, FreshModel, AllAllowed, Expand, Code, StateOk, ChunkOk, After, Start, Replay;
    var e := Entered(s, c);
    var m := Starting(e, c.kind);
    E.ChosenUnique(m, e.out, Window(e, w), Start(c.stream).value, c.cs, c'.cs);
  }

  /** So the chunks of an input are determined by it. */
  lemma {:induction false} ChunksUnique(s: State, w: Bounds, chunks: seq<Chunk>, chunks': seq<Chunk>)
    requires StateOk(s) && AllOk(s, w, chunks) && AllOk(s, w, chunks')
    requires PrintAll(s, w, chunks) == PrintAll(s, w, chunks')
    ensures chunks == chunks'
    decreases |chunks|
  {
    hide StateOk, ChunkOk, After, Print, Printable;
    assert chunks != [] ==> chunks == [chunks[0]] + chunks[1..];
    assert chunks' != [] ==> chunks' == [chunks'[0]] + chunks'[1..];
    if chunks != [] {
      FirstByte(s, w, chunks[0]);
      assert PrintAll(s, w, chunks)[0] != 0;
    }
    if chunks' != [] {
      FirstByte(s, w, chunks'[0]);
      assert PrintAll(s, w, chunks')[0] != 0;
    }
    if chunks != [] && chunks' != [] {
      var c, c' := chunks[0], chunks'[0];
      assert PrintAll(s, w, chunks) == Bytes(s, w, c) + PrintAll(After(s, w, c), w, chunks[1..]);
      assert PrintAll(s, w, chunks') == Bytes(s, w, c') + PrintAll(After(s, w, c'), w, chunks'[1..]);
      ChunkUnique(s, w, c, PrintAll(After(s, w, c), w, chunks[1..]), c', PrintAll(After(s, w, c'), w, chunks'[1..]));
      ChunksUnique(After(s, w, c), w, chunks[1..], chunks'[1..]);
    }
  }

  /** No chunk begins with the byte that ends the stream. */
  lemma FirstByte(s: State, w: Bounds, c: Chunk)
    requires StateOk(s) && ChunkOk(s, w, c)
    ensures Bytes(s, w, c) != [] && Bytes(s, w, c)[0] != 0
  {
    hide StateOk, ChunkOk, Bytes, ChunkStep;
    ReadBack(s, w, c, []);
    assert Bytes(s, w, c) + [] == Bytes(s, w, c);
  }
}
