/** The Deflate64 decoder as the program runs it, and the stored-block writer. */
module Deflate64Decoder {
  import opened Prelude
  import opened BitStrings
  import opened Lz77
  import opened Deflate64Bits
  import opened Deflate64Huffman
  import opened Deflate64Tables
  import opened Deflate64Blocks
  import opened Deflate64Trees
  import opened Deflate64Stream

  class Output {
    var bytes: seq<byte>
    const expected: Option<nat>
    const maximum: nat

    function Limits(): Bounds {
      Bounds(expected, maximum)
    }

    constructor (expected: Option<nat>, maximum: nat)
      ensures bytes == [] && this.expected == expected && this.maximum == maximum
    {
      this.bytes, this.expected, this.maximum := [], expected, maximum;
    }

    method AppendLiteral(b: byte) returns (r: Result<()>)
      modifies this
      ensures var o := Put(Literal(b), old(bytes), Limits());
              (r.Ok? <==> o.Ok?) && (r.Ok? ==> bytes == o.value)
    {
      r := Reserve(|bytes|, 1, Limits());
      if r.Ok? {
        bytes := bytes + [b];
      }
    }

    method CopyMatch(distance: nat, length: nat) returns (r: Result<()>)
      modifies this
      ensures var o := Deflate64Blocks.CopyMatch(old(bytes), distance, length, Limits());
              (r.Ok? <==> o.Ok?) && (r.Ok? ==> bytes == o.value)
    {
      if distance == 0 || distance > HISTORY {
        return Err(Format);
      }
      if distance > |bytes| {
        return Err(Format);
      }
      r := Reserve(|bytes|, length, Limits());
      if r.Err? {
        return;
      }
      ghost var before := bytes;
      for k := 0 to length
        invariant bytes == Copied(before, distance, k)
      {
        CopiedNext(before, distance, k);
        bytes := bytes + [bytes[|bytes| - distance]];
      }
    }
  }

  /** One literal, match or end-of-block code; whether the block goes on. */
  method DecodeToken(reader: BitReader, literalTree: Huffman, distanceTree: Huffman, output: Output,
                     ghost ls: Lengths, ghost ds: Lengths) returns (r: Result<bool>)
    requires reader.Valid() && Built(literalTree, ls) && Built(distanceTree, ds) && TreesOk(ls, ds)
    modifies reader, output
    ensures var t := ReadToken(ls, ds, old(reader.View()));
            if t.Err? then r.Err?
            else if t.value.0.None? then r == Ok(false) && reader.Valid() && t.value.1 == reader.View()
                                         && output.bytes == old(output.bytes)
            else
              var o := Put(t.value.0.value, old(output.bytes), output.Limits());
              if o.Err? then r.Err?
              else r == Ok(true) && reader.Valid() && t.value.1 == reader.View() && output.bytes == o.value
  {
    hide TakeBits, Decode, Built, BitReader.View, DISTANCE_BASE, DISTANCE_EXTRA, LENGTH_BASE, LENGTH_EXTRA, TreeOk;
    var symbol := DecodeSymbol(literalTree, ls, reader);
    if symbol.Err? {
      return Err(symbol.error);
    }
    if symbol.value < 256 {
      var pushed := output.AppendLiteral(symbol.value);
      return if pushed.Ok? then Ok(true) else Err(pushed.error);
    }
    if symbol.value == END_OF_BLOCK {
      return Ok(false);
    }
    if symbol.value > 285 {
      return Err(Format);
    }
    TableSizes();
    var lengthIndex := symbol.value - 257;
    var extra := reader.ReadBits(LENGTH_EXTRA[lengthIndex]);
    if extra.Err? {
      return Err(extra.error);
    }
    var distance := DecodeDistance(reader, distanceTree, ds, lengthIndex, extra.value);
    if distance.Err? {
      return Err(distance.error);
    }
    var copied := output.CopyMatch(distance.value, LENGTH_BASE[lengthIndex] + extra.value);
    r := if copied.Ok? then Ok(true) else Err(copied.error);
  }

  method DecodeDistance(reader: BitReader, distanceTree: Huffman, ghost ds: Lengths, ghost lengthCode: nat,
                        ghost lengthExtra: nat) returns (r: Result<nat>)
    requires reader.Valid() && Built(distanceTree, ds) && TreeOk(ds)
    modifies reader
    ensures var x := ReadDistance(ds, lengthCode, lengthExtra, old(reader.View()));
            && (r.Ok? <==> x.Ok?)
            && (r.Ok? ==> reader.Valid()
                          && x.value == (Some(Match(lengthCode, lengthExtra, r.value)), reader.View()))
  {
    hide TakeBits, Decode, Built, BitReader.View, DISTANCE_BASE, DISTANCE_EXTRA, LENGTH_BASE, LENGTH_EXTRA, TreeOk;
    var symbol := DecodeSymbol(distanceTree, ds, reader);
    if symbol.Err? {
      return Err(symbol.error);
    }
    if symbol.value >= 32 {
      return Err(Format);
    }
    TableSizes();
    var extra := reader.ReadBits(DISTANCE_EXTRA[symbol.value]);
    if extra.Err? {
      return Err(extra.error);
    }
    r := Ok(DISTANCE_BASE[symbol.value] + extra.value);
  }

  method DecodeCompressedBlock(reader: BitReader, literalTree: Huffman, distanceTree: Huffman, output: Output,
                               ghost ls: Lengths, ghost ds: Lengths) returns (r: Result<()>)
    requires reader.Valid() && Built(literalTree, ls) && Built(distanceTree, ds) && TreesOk(ls, ds)
    modifies reader, output
    ensures var x := Block(ls, ds, old(reader.View()), old(output.bytes), output.Limits());
            && (r.Ok? <==> x.Ok?)
            && (r.Ok? ==> reader.Valid() && x.value == (output.bytes, reader.View()))
  {
    hide ReadToken, Put, Built, BitReader.View, TreesOk;
    ghost var whole := Block(ls, ds, reader.View(), output.bytes, output.Limits());
    while true
      invariant reader.Valid()
      invariant whole == Block(ls, ds, reader.View(), output.bytes, output.Limits())
      decreases |reader.View()|
    {
      var more := DecodeToken(reader, literalTree, distanceTree, output, ls, ds);
      if more.Err? {
        return Err(more.error);
      }
      if !more.value {
        return Ok(());
      }
    }
  }

  method DecodeStoredBlock(reader: BitReader, output: Output) returns (r: Result<()>)
    requires reader.Valid()
    modifies reader, output
    ensures var x := StoredBlock(old(reader.View()), old(output.bytes), output.Limits());
            && (r.Ok? <==> x.Ok?)
            && (r.Ok? ==> reader.Valid() && x.value == (output.bytes, reader.View()))
  {
    hide TakeBits, BitReader.View, Align, TakeBytes, Reserve;
    ghost var out := output.bytes;
    reader.AlignToByte();
    var length := reader.ReadBits(16);
    if length.Err? {
      return Err(length.error);
    }
    var complement := reader.ReadBits(16);
    if complement.Err? {
      return Err(complement.error);
    }
    EightBits();
    // Both are 16-bit values, so flipping every bit is subtracting from 0xffff.
    if 0xffff - length.value != complement.value {
      return Err(Format);
    }
    r := Reserve(|output.bytes|, length.value, output.Limits());
    if r.Err? {
      return;
    }
    r := CopyStored(reader, output, length.value);
  }

  method CopyStored(reader: BitReader, output: Output, length: nat) returns (r: Result<()>)
    requires reader.Valid()
    modifies reader, output
    ensures var x := TakeBytes(old(reader.View()), length);
            && (r.Ok? <==> x.Ok?)
            && (r.Ok? ==> reader.Valid() && output.bytes == old(output.bytes) + x.value.0 && x.value.1 == reader.View())
  {
    hide TakeBits, BitReader.View;
    ghost var out, whole := output.bytes, TakeBytes(reader.View(), length);
    for k := 0 to length
      invariant reader.Valid() && out <= output.bytes
      invariant var x := TakeBytes(reader.View(), length - k);
                && (whole.Ok? <==> x.Ok?)
                && (x.Ok? ==> out + whole.value.0 == output.bytes + x.value.0 && whole.value.1 == x.value.1)
    {
      EightBits();
      ghost var before := reader.View();
      var b := reader.ReadBits(8);
      if b.Err? {
        return Err(b.error);
      }
      assert TakeBytes(before, length - k).Ok? ==>
          TakeBytes(before, length - k).value.0 == [b.value] + TakeBytes(reader.View(), length - k - 1).value.0;
      output.bytes := output.bytes + [b.value];
    }
    r := Ok(());
  }

  /** `fixed_trees`: neither table can be refused. */
  method BuildFixedTrees() returns (r: Result<(Huffman, Huffman)>)
    ensures r.Ok? && Built(r.value.0, FIXED_LITERALS) && Built(r.value.1, FIXED_DISTANCES)
  {
    hide Accepted, TreesOk, Built;
    var literals: array<nat> := new nat[288](i => 0);
    for i := 0 to 144
      invariant forall s | 0 <= s < i :: literals[s] == 8
    {
      literals[i] := 8;
    }
    for i := 144 to 256
      invariant forall s | 0 <= s < i :: literals[s] == if s < 144 then 8 else 9
    {
      literals[i] := 9;
    }
    for i := 256 to 280
      invariant forall s | 0 <= s < i :: literals[s] == if s < 144 then 8 else if s < 256 then 9 else 7
    {
      literals[i] := 7;
    }
    for i := 280 to 288
      invariant forall s | 0 <= s < i ::
          literals[s] == if s < 144 then 8 else if s < 256 then 9 else if s < 280 then 7 else 8
    {
      literals[i] := 8;
    }
    assert literals[..] == FIXED_LITERALS;
    FixedTreesOk();
    var literalTree := FromLengths(literals[..], false);
    var distanceTree := FromLengths(FIXED_DISTANCES, false);
    r := Ok((literalTree.value, distanceTree.value));
  }

  method DecodeCodeLengths(reader: BitReader, count: nat) returns (r: Result<Lengths>)
    requires reader.Valid() && count <= 19
    modifies reader
    ensures var x := ReadCodeLengths(old(reader.View()), 0, count, Repeat(0, 19));
            && (r.Ok? <==> x.Ok?)
            && (r.Ok? ==> reader.Valid() && x.value == (r.value, reader.View()))
  {
    hide TakeBits, BitReader.View, Repeat;
    OrderIsPermutation();
    hide CODE_LENGTH_ORDER;
    ghost var whole := ReadCodeLengths(reader.View(), 0, count, Repeat(0, 19));
    var codeLengths: Lengths := Repeat(0, 19);
    for k := 0 to count
      invariant reader.Valid() && |codeLengths| == 19
      invariant whole == ReadCodeLengths(reader.View(), k, count, codeLengths)
    {
      var length := reader.ReadBits(3);
      if length.Err? {
        return Err(length.error);
      }
      codeLengths := codeLengths[CODE_LENGTH_ORDER[k] := length.value];
    }
    r := Ok(codeLengths);
  }

  function Stores(run: Run, previous: Option<nat>): (nat, nat)
    requires run.Again? ==> previous.Some?
  {
    match run
    case One(length) => (length, 1)
    case Again(extra) => (previous.value, extra + 3)
    case Zeros(extra) => (0, extra + 3)
    case ManyZeros(extra) => (0, extra + 11)
  }

  lemma GrowStores(acc: Lengths, run: Run, previous: Option<nat>)
    requires previous == if acc == [] then None else Some(acc[|acc| - 1])
    requires run.Again? ==> previous.Some?
    ensures Grow(acc, run) == acc + Repeat(Stores(run, previous).0, Stores(run, previous).1)
  {
  }

  method Fill(lengths: array<nat>, position: nat, end: nat, value: nat)
    requires position <= end <= lengths.Length
    modifies lengths
    ensures lengths[..end] == old(lengths[..position]) + Repeat(value, end - position)
  {
    for k := position to end
      invariant lengths[..position] == old(lengths[..position])
      invariant forall i | position <= i < k :: lengths[i] == value
    {
      lengths[k] := value;
    }
  }

  /** A code-length symbol as a value and how often it is stored; `previous` is what a repeat repeats. */
  method DecodeRun(reader: BitReader, codeTree: Huffman, ghost cl: Lengths, previous: Option<nat>)
    returns (r: Result<(nat, nat)>)
    requires reader.Valid() && Built(codeTree, cl) && TreeOk(cl)
    modifies reader
    ensures var x := ReadRun(cl, old(reader.View()));
            if x.Err? || (x.value.0.Again? && previous.None?) then r.Err?
            else
              && r.Ok? && reader.Valid() && x.value.1 == reader.View()
              && r.value == Stores(x.value.0, previous)
  {
    hide TakeBits, BitReader.View, Decode, Built, TreeOk;
    var symbol := DecodeSymbol(codeTree, cl, reader);
    if symbol.Err? {
      return Err(symbol.error);
    }
    if symbol.value <= 15 {
      return Ok((symbol.value, 1));
    }
    if symbol.value > 18 || (symbol.value == 16 && previous.None?) {
      return Err(Format);
    }
    var bits := if symbol.value == 16 then 2 else if symbol.value == 17 then 3 else 7;
    var extra := reader.ReadBits(bits);
    if extra.Err? {
      return Err(extra.error);
    }
    r := Ok(if symbol.value == 16 then (previous.value, extra.value + 3)
            else (0, extra.value + if symbol.value == 17 then 3 else 11));
  }

  method DecodeLengths(reader: BitReader, codeTree: Huffman, ghost cl: Lengths, total: nat)
    returns (r: Result<Lengths>)
    requires reader.Valid() && Built(codeTree, cl) && TreeOk(cl) && total <= 318
    modifies reader
    ensures var x := ReadLengths(cl, old(reader.View()), total, []);
            && (r.Ok? <==> x.Ok?)
            && (r.Ok? ==> reader.Valid() && x.value == (r.value, reader.View()))
  {
    hide ReadRun, BitReader.View, Built, TreeOk, Grow, Repeat;
    ghost var whole := ReadLengths(cl, reader.View(), total, []);
    var lengths: array<nat> := new nat[318](i => 0);
    var position: nat := 0;
    while position < total
      invariant reader.Valid() && position <= total
      invariant whole == ReadLengths(cl, reader.View(), total, lengths[..position])
      decreases total - position
    {
      ghost var bits := reader.View();
      var previous := if position == 0 then None else Some(lengths[position - 1]);
      var run := DecodeRun(reader, codeTree, cl, previous);
      if run.Err? {
        return Err(run.error);
      }
      var (value, repeat) := run.value;
      var end := position + repeat;
      GrowStores(lengths[..position], ReadRun(cl, bits).value.0, previous);
      if end > total {
        return Err(Format);
      }
      Fill(lengths, position, end, value);
      position := end;
    }
    r := Ok(lengths[..position]);
  }

  method DecodeDynamicTrees(reader: BitReader)
    returns (r: Result<(Huffman, Huffman)>, ghost ls: Lengths, ghost ds: Lengths)
    requires reader.Valid()
    modifies reader
    ensures var x := DynamicTrees(old(reader.View()));
            && (r.Ok? <==> x.Ok?)
            && (r.Ok? ==> reader.Valid() && x.value == ((ls, ds), reader.View()))
    ensures r.Ok? ==> Built(r.value.0, ls) && Built(r.value.1, ds) && TreesOk(ls, ds)
  {
    hide TakeBits, BitReader.View, ReadCodeLengths, ReadLengths, Built, Subscribed, Repeat;
    SmallExtras();
    ls, ds := [], [];
    var a := reader.ReadBits(5);
    if a.Err? {
      return Err(a.error), ls, ds;
    }
    var b := reader.ReadBits(5);
    if b.Err? {
      return Err(b.error), ls, ds;
    }
    var c := reader.ReadBits(4);
    if c.Err? {
      return Err(c.error), ls, ds;
    }
    var literalCount, distanceCount, codeLengthCount := a.value + 257, b.value + 1, c.value + 4;
    if literalCount > 286 || distanceCount > 32 || codeLengthCount > 19 {
      return Err(Format), ls, ds;
    }
    r, ls, ds := DecodeTables(reader, literalCount, distanceCount, codeLengthCount);
  }

  /** What follows the three counts. */
  ghost function Tables(bits: Bits, literalCount: nat, distanceCount: nat, n: nat)
    : (x: Result<((Lengths, Lengths), Bits)>)
    requires 257 <= literalCount <= 286 && distanceCount <= 32 && n <= 19
  {
    hide ReadCodeLengths, ReadLengths;
    var (cl, n3) :- ReadCodeLengths(bits, 0, n, Repeat(0, 19));
    if !Accepted(cl, false) then Err(Format)
    else
      var (all, n4) :- ReadLengths(cl, n3, literalCount + distanceCount, []);
      var trees :- Split(all, literalCount);
      Ok((trees, n4))
  }

  method DecodeTables(reader: BitReader, literalCount: nat, distanceCount: nat, codeLengthCount: nat)
    returns (r: Result<(Huffman, Huffman)>, ghost ls: Lengths, ghost ds: Lengths)
    requires reader.Valid() && 257 <= literalCount <= 286 && distanceCount <= 32 && codeLengthCount <= 19
    modifies reader
    ensures var x := Tables(old(reader.View()), literalCount, distanceCount, codeLengthCount);
            && (r.Ok? <==> x.Ok?)
            && (r.Ok? ==> reader.Valid() && x.value == ((ls, ds), reader.View()))
    ensures r.Ok? ==> Built(r.value.0, ls) && Built(r.value.1, ds) && TreesOk(ls, ds)
  {
    hide ReadCodeLengths, ReadLengths, Built, BitReader.View, Subscribed, Index, Repeat;
    ls, ds := [], [];
    var codeLengths := DecodeCodeLengths(reader, codeLengthCount);
    if codeLengths.Err? {
      return Err(codeLengths.error), ls, ds;
    }
    var codeTree := FromLengths(codeLengths.value, false);
    if codeTree.Err? {
      return Err(codeTree.error), ls, ds;
    }
    var lengths := DecodeLengths(reader, codeTree.value, codeLengths.value, literalCount + distanceCount);
    if lengths.Err? {
      return Err(lengths.error), ls, ds;
    }
    if lengths.value[END_OF_BLOCK] == 0 {
      return Err(Format), ls, ds;
    }
    ls, ds := lengths.value[..literalCount], lengths.value[literalCount..];
    var literalTree := FromLengths(lengths.value[..literalCount], false);
    if literalTree.Err? {
      return Err(literalTree.error), ls, ds;
    }
    var distanceTree := FromLengths(lengths.value[literalCount..], true);
    if distanceTree.Err? {
      return Err(distanceTree.error), ls, ds;
    }
    r := Ok((literalTree.value, distanceTree.value));
  }

  method DecodeBody(reader: BitReader, output: Output) returns (r: Result<()>)
    requires reader.Valid()
    modifies reader, output
    ensures var x := BlockBody(old(reader.View()), old(output.bytes), output.Limits());
            && (r.Ok? <==> x.Ok?)
            && (r.Ok? ==> reader.Valid() && x.value == (output.bytes, reader.View()))
  {
    hide TakeBits, BitReader.View, Block, StoredBlock, DynamicTrees, Built, TreesOk;
    var kind := reader.ReadBits(2);
    if kind.Err? {
      return Err(kind.error);
    }
    match kind.value {
      case 0 =>
        r := DecodeStoredBlock(reader, output);
      case 1 =>
        var trees := BuildFixedTrees();
        FixedTreesOk();
        r := DecodeCompressedBlock(reader, trees.value.0, trees.value.1, output, FIXED_LITERALS, FIXED_DISTANCES);
      case 2 =>
        ghost var ls, ds;
        var trees;
        trees, ls, ds := DecodeDynamicTrees(reader);
        if trees.Err? {
          return Err(trees.error);
        }
        r := DecodeCompressedBlock(reader, trees.value.0, trees.value.1, output, ls, ds);
      case _ =>
        r := Err(Format);
    }
  }

  method DecodeDeflate64(input: seq<byte>, expected: Option<nat>, maximum: nat, maxDictionary: nat)
    returns (r: Result<seq<byte>>)
    ensures var x := Deflate64Stream.DecodeDeflate64(input, expected, maximum, maxDictionary);
            (r.Ok? <==> x.Ok?) && (r.Ok? ==> r.value == x.value)
  {
    hide TakeBits, BlockBody, BytesBits;
    if HISTORY > maxDictionary {
      return Err(LimitExceeded);
    }
    if expected.Some? && expected.value > maximum {
      return Err(LimitExceeded);
    }
    var output := new Output(expected, maximum);
    var reader := new BitReader(input);
    ghost var w := output.Limits();
    while true
      invariant fresh(reader) && fresh(output) && reader.Valid() && output.Limits() == w
      invariant Stream(BytesBits(input), [], w) == Stream(reader.View(), output.bytes, w)
      decreases |reader.View()|
    {
      var final := reader.ReadBits(1);
      if final.Err? {
        return Err(final.error);
      }
      var body := DecodeBody(reader, output);
      if body.Err? {
        return Err(body.error);
      }
      if final.value != 0 {
        break;
      }
    }
    if reader.HasTrailingBytes() {
      return Err(Format);
    }
    if expected.Some? && expected.value != |output.bytes| {
      return Err(Format);
    }
    r := Ok(output.bytes);
  }
}
