/** `decode_lzma2` as the program runs it, and the uncompressed LZMA2 writer it inverts. */
module Lzma2Decoder {
  import opened Prelude
  import opened LzmaOperations
  import opened LzmaStream
  import opened LzmaMachine
  import D = LzmaDecoder
  import opened Lzma2

  class SliceCursor {
    const bytes: seq<byte>
    var position: nat

    ghost predicate Valid()
      reads this
    {
      position <= |bytes|
    }

    constructor (bytes: seq<byte>)
      ensures Valid() && this.bytes == bytes && position == 0
    {
      this.bytes, position := bytes, 0;
    }

    method ReadU8() returns (r: Result<byte>)
      requires Valid()
      modifies this
      ensures Valid() && (r.Ok? <==> old(position) < |bytes|)
      ensures r.Ok? ==> r.value == bytes[old(position)] && position == old(position) + 1
    {
      if position == |bytes| {
        return Err(Format);
      }
      position := position + 1;
      r := Ok(bytes[position - 1]);
    }

    method ReadU16() returns (r: Result<nat>)
      requires Valid()
      modifies this
      ensures Valid() && (r.Ok? <==> old(position) + 2 <= |bytes|)
      ensures r.Ok? ==> r.value == Pair(bytes[old(position)], bytes[old(position) + 1]) && position == old(position) + 2
    {
      var high :- ReadU8();
      var low :- ReadU8();
      r := Ok(Pair(high, low));
    }

    method ReadBytes(length: nat) returns (r: Result<seq<byte>>)
      requires Valid()
      modifies this
      ensures Valid() && (r.Ok? <==> old(position) + length <= |bytes|)
      ensures r.Ok? ==> r.value == bytes[old(position)..][..length] && position == old(position) + length
    {
      if position + length > |bytes| {
        return Err(Format);
      }
      r := Ok(bytes[position..position + length]);
      position := position + length;
    }

    predicate IsFinished()
      reads this
    {
      position == |bytes|
    }
  }

  /** The variables of the chunk loop. */
  class ChunkReader {
    const input: SliceCursor
    const output: D.Output
    var state: LzmaState?
    var needsReset: bool
    var needsProperties: bool

    ghost function View(): State
      reads this, output, state
    {
      State(output.bytes, output.dictionaryStart, if state == null then None else Some(state.View()),
            needsReset, needsProperties)
    }

    ghost function Rest(): seq<byte>
      requires input.Valid()
      reads input
    {
      input.bytes[input.position..]
    }

    ghost predicate Valid()
      reads this, input, output, state
    {
      input.Valid() && StateOk(View())
    }

    constructor (input: SliceCursor, output: D.Output)
      requires input.Valid() && output.bytes == [] && output.dictionaryStart == 0
      ensures Valid() && View() == INITIAL && this.input == input && this.output == output && state == null
    {
      this.input, this.output := input, output;
      state := null;
      needsReset, needsProperties := true, true;
    }

    /** What a step promises, against its functional form. */
    ghost predicate Steps(r: Result<()>, x: Result<Step>)
      reads this, input, output, state
    {
      (r.Ok? <==> x.Ok?) && (r.Ok? ==> Valid() && x.value == Step(View(), Rest()))
    }

    method EnterChunk(control: byte) returns (r: Result<()>)
      requires Valid()
      modifies this`needsReset, this`needsProperties, output`dictionaryStart
      ensures r.Ok? <==> Enter(old(View()), control).Ok?
      ensures r.Ok? ==> Valid() && Enter(old(View()), control).value == View()
    {
      hide ModelOk;
      if control >= 0xe0 || control == 1 {
        output.ResetDictionary();
        needsReset, needsProperties := false, true;
      } else if needsReset {
        return Err(Format);
      }
      r := Ok(());
    }

    method ReadRaw(ghost w: Bounds) returns (r: Result<()>)
      requires Valid() && w.maximum == output.maximum
      modifies input, output`bytes
      ensures Steps(r, RawStep(old(View()), w, old(Rest())))
    {
      hide ModelOk, Pair;
      var size := input.ReadU16();
      if size.Err? {
        return Err(size.error);
      }
      assert old(Rest())[2..] == Rest();
      var data := input.ReadBytes(size.value + 1);
      if data.Err? {
        return Err(data.error);
      }
      assert Rest() == old(Rest())[2 + (size.value + 1)..];
      r := output.ExtendUncompressed(data.value);
    }

    /** Replaces, resets or keeps the decoder state. */
    method SelectState(control: byte) returns (r: Result<LzmaState>)
      requires Valid()
      modifies this`state, this`needsProperties, state, input
      ensures fresh(state) || state == old(state)
      ensures r.Ok? <==> Select(old(View()), control, old(Rest())).Ok?
      ensures r.Ok? ==> Valid() && state == r.value && (fresh(r.value) || r.value == old(state))
      ensures r.Ok? ==> Select(old(View()), control, old(Rest())).value == (r.value.View(), Rest())
      ensures r.Ok? ==> needsProperties == (old(needsProperties) && control < 0xc0)
    {
      hide ModelOk, FreshModel, PropertiesFromByte;
      if control >= 0xc0 {
        var property := input.ReadU8();
        if property.Err? {
          return Err(property.error);
        }
        assert Rest() == old(Rest())[1..];
        var p := PropertiesFromByte(property.value);
        if p.Err? {
          return Err(p.error);
        }
        state := new LzmaState(p.value.lc, p.value.lp, p.value.pb);
        needsProperties := false;
      } else if needsProperties {
        return Err(Format);
      } else if control >= 0xa0 {
        state.Reset();
      }
      r := Ok(state);
    }

    method ReadPacked(control: byte, ghost w: Bounds) returns (r: Result<()>)
      requires Valid() && control >= 0x80 && w.maximum == output.maximum && w.dictionary == output.dictionarySize
      modifies this`state, this`needsProperties, state, input, output`bytes
      ensures fresh(state) || state == old(state)
      ensures Steps(r, PackedStep(old(View()), w, control, old(Rest())))
    {
      hide ModelOk, Pair, Select, DecodeStream;
      var low := input.ReadU16();
      if low.Err? {
        return Err(low.error);
      }
      var unpacked := control % 0x20 * 0x1_0000 + low.value + 1;
      var packed := input.ReadU16();
      if packed.Err? {
        return Err(packed.error);
      }
      assert Rest() == old(Rest())[4..];
      var selected := SelectState(control);
      if selected.Err? {
        return Err(selected.error);
      }
      ghost var tail := Rest();
      var stream := input.ReadBytes(packed.value + 1);
      if stream.Err? {
        return Err(stream.error);
      }
      assert Rest() == tail[packed.value + 1..];
      PackedStepIs(old(View()), w, control, old(Rest()), selected.value.View(), tail, unpacked, packed.value + 1);
      hide PackedStep;
      r := D.DecodeStream(selected.value, stream.value, output, Some(unpacked), false);
    }

    method ReadChunk(control: byte, ghost w: Bounds) returns (r: Result<()>)
      requires Valid() && w.maximum == output.maximum && w.dictionary == output.dictionarySize
      modifies this, state, input, output
      ensures fresh(state) || state == old(state)
      ensures Steps(r, ChunkStep(old(View()), w, control, old(Rest())))
    {
      hide ModelOk, Enter, PackedStep, RawStep;
      var entered := EnterChunk(control);
      if entered.Err? {
        return Err(entered.error);
      }
      if control >= 0x80 {
        r := ReadPacked(control, w);
      } else if control <= 2 {
        r := ReadRaw(w);
      } else {
        r := Err(Format);
      }
    }
  }

  method DecodeLzma2(input: seq<byte>, properties: seq<byte>, expected: Option<nat>, maximum: nat)
    returns (r: Result<seq<byte>>)
    ensures var x := Lzma2.DecodeLzma2(input, properties, expected, maximum);
            (r.Ok? <==> x.Ok?) && (r.Ok? ==> r.value == x.value)
  {
    hide StateOk, ChunkStep, Dictionary, RunChunks;
    var dictionary :- Dictionary(properties);
    if expected.Some? && expected.value > maximum {
      return Err(LimitExceeded);
    }
    var output := new D.Output(maximum, dictionary);
    var cursor := new SliceCursor(input);
    var reader := new ChunkReader(cursor, output);
    ghost var w := Bounds(maximum, dictionary, expected);
    assert reader.Rest() == input;
    while true
      invariant fresh(reader) && fresh(cursor) && fresh(output) && (reader.state == null || fresh(reader.state))
      invariant reader.input == cursor && reader.output == output && reader.Valid()
      invariant RunChunks(INITIAL, w, input) == RunChunks(reader.View(), w, reader.Rest())
      decreases |cursor.bytes| - cursor.position
    {
      ghost var s, rest := reader.View(), reader.Rest();
      RunUnfolds(s, w, rest);
      var control := cursor.ReadU8();
      if control.Err? {
        return Err(control.error);
      }
      assert reader.Rest() == rest[1..] && reader.View() == s;
      if control.value == 0 {
        if !cursor.IsFinished() || (expected.Some? && |output.bytes| != expected.value) {
          return Err(Format);
        }
        return Ok(output.bytes);
      }
      var chunk := reader.ReadChunk(control.value, w);
      if chunk.Err? {
        return Err(chunk.error);
      }
      if expected.Some? && |output.bytes| > expected.value {
        return Err(Format);
      }
    }
  }

  /** What a compressed chunk does once its header is read. */
  lemma PackedStepIs(s: State, w: Bounds, control: byte, rest: seq<byte>, m: Model, tail: seq<byte>,
                     unpacked: nat, packed: nat)
    requires StateOk(s) && control >= 0x80 && |rest| >= 4 && Select(s, control, rest[4..]) == Ok((m, tail))
    requires unpacked == control % 0x20 * 0x1_0000 + Pair(rest[0], rest[1]) + 1
    requires packed == Pair(rest[2], rest[3]) + 1 <= |tail|
    ensures ModelOk(m)
    ensures var e := DecodeStream(m, tail[..packed], s.out, Window(s, w), Some(unpacked), false);
            PackedStep(s, w, control, rest)
            == if e.Err? then Err(e.error)
               else Ok(Step(s.(out := e.value.out, m := Some(e.value.m),
                               needsProperties := s.needsProperties && control < 0xc0), tail[packed..]))
  {
    hide ModelOk, Select, DecodeStream, Pair;
  }

  /** One turn of the chunk loop. */
  lemma RunUnfolds(s: State, w: Bounds, rest: seq<byte>)
    requires StateOk(s)
    ensures RunChunks(s, w, rest)
         == if rest == [] then Err(Format)
            else if rest[0] == 0 then
              if |rest| > 1 || (w.expected.Some? && w.expected.value != |s.out|) then Err(Format) else Ok(s.out)
            else
              var x := ChunkStep(s, w, rest[0], rest[1..]);
              if x.Err? then Err(x.error)
              else if w.expected.Some? && |x.value.s.out| > w.expected.value then Err(Format)
              else RunChunks(x.value.s, w, x.value.rest)
  {
    hide StateOk, ChunkStep;
  }

  // ---- the uncompressed writer ----

  const RAW_LIMIT: nat := 0x1_0000

  /** The rest of the stream when `s` is still to be written. */
  function Uncompressed(s: seq<byte>, first: bool): (p: seq<byte>)
    decreases |s|
  {
    if s == [] then [0]
    else
      var n := Min(|s|, RAW_LIMIT);
      [if first then 1 else 2] + Split(n - 1) + s[..n] + Uncompressed(s[n..], false)
  }

  method WriteUncompressed(source: seq<byte>) returns (packed: seq<byte>)
    ensures packed == Uncompressed(source, true)
  {
    hide Uncompressed, Split;
    packed := [];
    var k: nat, first := 0, true;
    while k < |source|
      invariant k <= |source|
      invariant Uncompressed(source, true) == packed + Uncompressed(source[k..], first)
    {
      ghost var before := packed;
      var n := Min(|source| - k, RAW_LIMIT);
      var data := source[k..k + n];
      packed := packed + [if first then 1 else 2];
      packed := packed + Split(n - 1);
      packed := packed + data;
      ChunkWritten(before, source[k..], first, n, data, packed);
      assert source[k..][n..] == source[k + n..];
      k, first := k + n, false;
    }
    assert source[k..] == [];
    packed := packed + [0];
    WrittenAll(first);
  }

  lemma WrittenAll(first: bool)
    ensures Uncompressed([], first) == [0]
  {
  }

  lemma ChunkWritten(before: seq<byte>, rest: seq<byte>, first: bool, n: nat, data: seq<byte>, packed: seq<byte>)
    requires rest != [] && n == Min(|rest|, RAW_LIMIT) && data == rest[..n]
    requires packed == before + [if first then 1 else 2] + Split(n - 1) + data
    ensures before + Uncompressed(rest, first) == packed + Uncompressed(rest[n..], false)
  {
    hide Split;
    var head := [if first then 1 else 2] + Split(n - 1) + data;
    var tail := Uncompressed(rest[n..], false);
    assert Uncompressed(rest, first) == head + tail;
    hide Uncompressed;
    assert packed == before + head;
  }

  lemma {:induction false} UncompressedRuns(s: State, w: Bounds, data: seq<byte>, first: bool)
    requires StateOk(s) && (first || !s.needsReset)
    requires |s.out| + |data| <= w.maximum && (w.expected.Some? ==> w.expected.value == |s.out| + |data|)
    ensures RunChunks(s, w, Uncompressed(data, first)) == Ok(s.out + data)
    decreases |data|
  {
    hide StateOk, ChunkStep, RunChunks, Uncompressed, ChunkOk, After, Print;
    if data == [] {
      assert s.out + data == s.out;
      WrittenAll(first);
      RunUnfolds(s, w, [0]);
    } else {
      var n := Min(|data|, RAW_LIMIT);
      var c := Raw(first, data[..n]);
      var more := Uncompressed(data[n..], false);
      RawChunk(s, w, c);
      RawInverts(s, w, c, n, more);
      RawPrinted(data, first);
      RunUnfolds(s, w, Uncompressed(data, first));
      UncompressedRuns(After(s, w, c), w, data[n..], false);
      assert s.out + data == s.out + data[..n] + data[n..];
    }
  }

  lemma RawPrinted(data: seq<byte>, first: bool)
    requires data != []
    ensures var n := Min(|data|, RAW_LIMIT);
            Uncompressed(data, first) == Print(Raw(first, data[..n]), n) + Uncompressed(data[n..], false)
  {
    hide Split;
  }

  lemma RawChunk(s: State, w: Bounds, c: Chunk)
    requires StateOk(s) && c.Raw? && (c.reset || !s.needsReset) && 1 <= |c.data| <= RAW_LIMIT
    requires |s.out| + |c.data| <= Ceiling(w)
    ensures ChunkOk(s, w, c) && After(s, w, c).out == s.out + c.data && !After(s, w, c).needsReset
  {
    hide ModelOk;
  }

  /** `decode_lzma2(lzma2_uncompressed(s)) == s`, for every byte string and any number of chunks. */
  lemma UncompressedInverts(source: seq<byte>, property: byte, expected: Option<nat>, maximum: nat)
    requires property <= 40 && |source| <= maximum && (expected.Some? ==> expected.value == |source|)
    ensures Lzma2.DecodeLzma2(Uncompressed(source, true), [property], expected, maximum) == Ok(source)
  {
    hide RunChunks, Uncompressed;
    UncompressedRuns(INITIAL, Bounds(maximum, Dictionary([property]).value, expected), source, true);
    assert INITIAL.out + source == source;
  }
}
