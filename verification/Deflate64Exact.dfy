/** The converse of the Deflate64 inverse: an accepted input is some blocks written out, and its output is what they
    produce. */
module Deflate64Exact {
  import opened Prelude
  import opened BitStrings
  import opened Deflate64Bits
  import opened Deflate64Huffman
  import opened Deflate64Tables
  import opened Deflate64Blocks
  import opened Deflate64Trees
  import opened Deflate64Stream
  import OutputCaps

  // ---- dynamic headers ----

  /** Only a run's own bits decode to it. */
  lemma RunExact(cl: Lengths, bits: Bits)
    requires TreeOk(cl) && ReadRun(cl, bits).Ok?
    ensures var (run, rest) := ReadRun(cl, bits).value; RunOk(cl, run) && bits == RunBits(cl, run) + rest
  {
    hide Decode, TakeBits, CodeBits, TreeOk, Low;
    SmallExtras();
    var (symbol, n) := Decode(cl, bits).value;
    DecodeExact(cl, bits, symbol, n);
    if symbol > 15 {
      var width := if symbol == 16 then 2 else if symbol == 17 then 3 else 7;
      var (extra, rest) := TakeBits(n, width).value;
      TakeExact(n, width);
      assert bits == CodeBits(cl, symbol) + Low(extra, width) + rest;
    }
  }

  lemma {:induction false} LengthsExact(cl: Lengths, bits: Bits, total: nat, acc: Lengths) returns (runs: seq<Run>)
    requires TreeOk(cl) && |acc| <= total && ReadLengths(cl, bits, total, acc).Ok?
    ensures RunsOk(cl, acc, runs)
    ensures var (all, rest) := ReadLengths(cl, bits, total, acc).value;
            all == Grown(cl, acc, runs) && bits == RunsBits(cl, acc, runs) + rest
    decreases |bits|
  {
    hide ReadRun, Grow, RunOk, TreeOk, RunBits;
    if |acc| == total {
      runs := [];
      assert [] + bits == bits;
    } else {
      RunExact(cl, bits);
      var (run, n) := ReadRun(cl, bits).value;
      var tail := LengthsExact(cl, n, total, Grow(acc, run));
      runs := [run] + tail;
      assert runs[1..] == tail;
    }
  }

  /** What reading code lengths from the `k`-th on leaves and sets. */
  ghost predicate Sets(before: Lengths, after: Lengths, k: nat, n: nat)
    requires |before| == 19 && |after| == 19 && k <= n <= 19
  {
    OrderIsPermutation();
    && (forall i | 0 <= i < k || n <= i < 19 :: after[CODE_LENGTH_ORDER[i]] == before[CODE_LENGTH_ORDER[i]])
    && (forall i | k <= i < n :: after[CODE_LENGTH_ORDER[i]] < 8)
  }

  lemma {:induction false} CodeLengthsExact(bits: Bits, k: nat, n: nat, cl: Lengths)
    requires k <= n <= 19 && |cl| == 19 && ReadCodeLengths(bits, k, n, cl).Ok?
    ensures var (all, rest) := ReadCodeLengths(bits, k, n, cl).value;
            Sets(cl, all, k, n) && bits == CodeLengthBits(all, k, n) + rest
    decreases n - k
  {
    hide TakeBits, Low, CODE_LENGTH_ORDER;
    OrderIsPermutation();
    if k == n {
      assert [] + bits == bits;
    } else {
      SmallExtras();
      var (v, more) := TakeBits(bits, 3).value;
      TakeExact(bits, 3);
      CodeLengthsExact(more, k + 1, n, cl[CODE_LENGTH_ORDER[k] := v]);
      var (all, rest) := ReadCodeLengths(bits, k, n, cl).value;
      assert bits == Low(all[CODE_LENGTH_ORDER[k]], 3) + (CodeLengthBits(all, k + 1, n) + rest);
    }
  }

  lemma SetsAll(all: Lengths, n: nat)
    requires n <= 19 && |all| == 19 && Sets(Repeat(0, 19), all, 0, n)
    ensures CodeLengthsOk(all, n)
  {
    hide CODE_LENGTH_ORDER;
    OrderIsPermutation();
    forall v | 0 <= v < 19 ensures all[v] < 8 {
      assert v in CODE_LENGTH_ORDER;
      var i :| 0 <= i < 19 && CODE_LENGTH_ORDER[i] == v;
    }
  }

  /** Accepted dynamic trees are those of the header the bits spell out. */
  lemma DynamicExact(bits: Bits) returns (h: Header)
    requires DynamicTrees(bits).Ok?
    ensures HeaderOk(h)
    ensures var ((ls, ds), rest) := DynamicTrees(bits).value;
            ls == h.literals && ds == h.distances && bits == HeaderBits(h) + rest
  {
    hide TakeBits, ReadCodeLengths, ReadLengths, TreeOk, Low, CodeLengthBits, RunsBits, RunsOk, Grown, CodeLengthsOk;
    SmallExtras();
    var (a, n0) := TakeBits(bits, 5).value;
    var (b, n1) := TakeBits(n0, 5).value;
    var (c, n2) := TakeBits(n1, 4).value;
    TakeExact(bits, 5);
    TakeExact(n0, 5);
    TakeExact(n1, 4);
    var n := c + 4;
    var (cl, n3) := ReadCodeLengths(n2, 0, n, Repeat(0, 19)).value;
    CodeLengthsExact(n2, 0, n, Repeat(0, 19));
    SetsAll(cl, n);
    var runs := LengthsExact(cl, n3, a + 257 + (b + 1), []);
    var ((ls, ds), rest) := DynamicTrees(bits).value;
    h := Header(ls, ds, n, cl, runs);
    HeaderIs(h, ReadLengths(cl, n3, a + 257 + (b + 1), []).value.0, a + 257);
    Prepend4(Low(a, 5), Low(b, 5), Low(c, 4), CodeLengthBits(cl, 0, n), RunsBits(cl, [], runs), rest);
  }

  lemma HeaderIs(h: Header, all: Lengths, literalCount: nat)
    requires 257 <= literalCount < |all| <= literalCount + 32 && literalCount <= 286
    requires Split(all, literalCount) == Ok((h.literals, h.distances))
    requires 4 <= h.n <= 19 && |h.codeLengths| == 19
    requires CodeLengthsOk(h.codeLengths, h.n) && Accepted(h.codeLengths, false)
    requires RunsOk(h.codeLengths, [], h.runs) && Grown(h.codeLengths, [], h.runs) == all
    ensures HeaderOk(h) && |h.literals| == literalCount && |h.distances| == |all| - literalCount
  {
    hide Accepted, CodeLengthsOk, RunsOk, Grown;
  }

  // ---- blocks ----

  lemma {:induction false} BytesExact(bits: Bits, k: nat)
    requires TakeBytes(bits, k).Ok?
    ensures var (data, rest) := TakeBytes(bits, k).value; bits == BytesBits(data) + rest
    decreases k
  {
    hide TakeBits, Low;
    if k == 0 {
      assert [] + bits == bits;
    } else {
      EightBits();
      var (b, n) := TakeBits(bits, 8).value;
      TakeExact(bits, 8);
      BytesExact(n, k - 1);
      var (tail, rest) := TakeBytes(n, k - 1).value;
      assert ([b] + tail)[1..] == tail;
      assert bits == Low(b, 8) + (BytesBits(tail) + rest);
    }
  }

  lemma StoredExact(bits: Bits, out: seq<byte>, w: Bounds) returns (data: seq<byte>, pad: Bits)
    requires StoredBlock(bits, out, w).Ok?
    ensures var (all, rest) := StoredBlock(bits, out, w).value;
            && |data| <= 0xffff && |pad| < 8 && |rest| % 8 == 0 && all == out + data
            && bits == pad + (Low(|data|, 16) + (Low(0xffff - |data|, 16) + (BytesBits(data) + rest)))
  {
    hide TakeBits, Low, BytesBits, TakeBytes, Pow2, Reserve;
    EightBits();
    pad := bits[..|bits| % 8];
    var (size, n) := TakeBits(Align(bits), 16).value;
    var (complement, n1) := TakeBits(n, 16).value;
    TakeExact(Align(bits), 16);
    TakeExact(n, 16);
    BytesExact(n1, size);
    data := TakeBytes(n1, size).value.0;
    var rest := TakeBytes(n1, size).value.1;
    assert bits == pad + Align(bits);
    WholeRest(|Align(bits)|, size, |rest|);
  }

  lemma WholeRest(all: nat, k: nat, rest: nat)
    requires all == 32 + 8 * k + rest && all % 8 == 0
    ensures rest % 8 == 0
  {
  }

  /** An accepted block is one an encoder may write there. */
  lemma BodyExact(bits: Bits, out: seq<byte>, w: Bounds) returns (b: BlockSpec)
    requires BlockBody(bits, out, w).Ok?
    ensures var (all, rest) := BlockBody(bits, out, w).value;
            SpecOk(out, b) && Aligned(b, rest) && all == Produced(out, b) && bits == SpecBits(out, b, rest)
  {
    hide TakeBits, StoredBlock, Low, DynamicTrees, Block, BlockBits, AllOk, Expand, HeaderBits, TreesOk, HasCode;
    EightBits();
    var (kind, n) := TakeBits(bits, 2).value;
    TakeExact(bits, 2);
    if kind == 0 {
      var data, pad := StoredExact(n, out, w);
      b := Stored(data, pad);
    } else if kind == 1 {
      FixedTreesOk();
      var ts := BlockExact(FIXED_LITERALS, FIXED_DISTANCES, n, out, w);
      b := Fixed(ts);
    } else {
      var h := DynamicExact(n);
      HeaderTrees(h);
      var ts := BlockExact(h.literals, h.distances, DynamicTrees(n).value.1, out, w);
      b := Dynamic(h, ts);
    }
  }

  /** An accepted stream is the writing of a list of blocks and some padding. */
  lemma {:induction false} StreamExact(bits: Bits, out: seq<byte>, w: Bounds)
    returns (blocks: seq<BlockSpec>, padding: Bits)
    requires Stream(bits, out, w).Ok?
    ensures |padding| < 8 && Write(out, blocks, padding) == Some(Written(bits, Stream(bits, out, w).value))
    ensures w.expected.Some? ==> |Stream(bits, out, w).value| == w.expected.value
    decreases |bits|
  {
    hide SpecOk, Produced, SpecBits, Aligned, BlockBody, TakeBits, Low;
    var (final, n) := TakeBits(bits, 1).value;
    FirstBit(bits);
    var b := BodyExact(n, out, w);
    var (next, rest) := BlockBody(n, out, w).value;
    if final != 0 {
      blocks, padding := [b], rest;
    } else {
      var tail, pad := StreamExact(rest, next, w);
      blocks, padding := [b] + tail, pad;
      assert tail != [];
      assert blocks[1..] == tail;
    }
  }

  lemma FirstBit(bits: Bits)
    requires TakeBits(bits, 1).Ok?
    ensures var (b, rest) := TakeBits(bits, 1).value; b <= 1 && bits == [if b != 0 then 1 else 0] + rest
  {
    OneBit(bits);
  }

  /** Some blocks write exactly these bits and produce exactly this output. */
  ghost predicate WritingOf(bits: Bits, out: seq<byte>) {
    exists blocks: seq<BlockSpec>, padding: Bits ::
      |padding| < 8 && Write([], blocks, padding) == Some(Written(bits, out))
  }

  /** Deflate64 decodes an input to an output exactly when some blocks are written as one and produce the other. */
  lemma DecodesExactly(input: seq<byte>, out: seq<byte>, expected: Option<nat>, maximum: nat, maxDictionary: nat)
    ensures DecodeDeflate64(input, expected, maximum, maxDictionary) == Ok(out) <==>
              && WritingOf(BytesBits(input), out) && HISTORY <= maxDictionary
              && |out| <= maximum && (expected.Some? ==> |out| == expected.value)
  {
    hide Write, Stream, BytesBits;
    var bits, w := BytesBits(input), Bounds(expected, maximum);
    if DecodeDeflate64(input, expected, maximum, maxDictionary) == Ok(out) {
      var blocks, padding := StreamExact(bits, [], w);
      assert |padding| < 8 && Write([], blocks, padding) == Some(Written(bits, out));
      OutputCaps.Deflate64Obeys(input, expected, maxDictionary, maximum, maximum);
    }
    if WritingOf(bits, out) && |out| <= maximum && (expected.Some? ==> |out| == expected.value) {
      var blocks: seq<BlockSpec>, padding: Bits :|
        |padding| < 8 && Write([], blocks, padding) == Some(Written(bits, out));
      StreamInverts([], blocks, padding, w);
    }
  }
}
