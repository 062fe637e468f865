/** Whole Deflate64 streams, and the stored-block writer they invert. */
module Deflate64Stream {
  import opened Prelude
  import opened BitStrings
  import opened Deflate64Bits
  import opened Deflate64Huffman
  import opened Deflate64Tables
  import opened Deflate64Blocks
  import opened Deflate64Trees

  function TakeBytes(bits: Bits, k: nat): (x: Result<(seq<byte>, Bits)>)
    ensures x.Ok? ==> |x.value.0| == k && |x.value.1| <= |bits|
    decreases k
  {
    if k == 0 then Ok(([], bits))
    else
      var (b, n) :- TakeBits(bits, 8);
      EightBits();
      var (tail, rest) :- TakeBytes(n, k - 1);
      Ok(([b] + tail, rest))
  }

  lemma EightBits()
    ensures Pow2(8) == 0x100 && Pow2(16) == 0x1_0000 && Pow2(1) == 2 && Pow2(2) == 4
  {
  }

  /** `decode_stored_block`. */
  function StoredBlock(bits: Bits, out: seq<byte>, w: Bounds): (x: Result<(seq<byte>, Bits)>)
    ensures x.Ok? ==> |x.value.1| <= |bits|
  {
    var (size, n) :- TakeBits(Align(bits), 16);
    var (complement, n1) :- TakeBits(n, 16);
    if 0xffff - size != complement then Err(Format)
    else
      var _ :- Reserve(|out|, size, w);
      var (data, rest) :- TakeBytes(n1, size);
      Ok((out + data, rest))
  }

  /** One block after its header bit: stored, fixed or dynamic. */
  function BlockBody(bits: Bits, out: seq<byte>, w: Bounds): (x: Result<(seq<byte>, Bits)>)
    ensures x.Ok? ==> |x.value.1| <= |bits|
  {
    hide StoredBlock, DynamicTrees, Block, TakeBits;
    var (kind, n) :- TakeBits(bits, 2);
    match kind
    case 0 => StoredBlock(n, out, w)
    case 1 => Block(FIXED_LITERALS, FIXED_DISTANCES, n, out, w)
    case 2 =>
      var ((ls, ds), n1) :- DynamicTrees(n);
      Block(ls, ds, n1, out, w)
    case _ => Err(Format)
  }

  /** Unread whole bytes are an error, and so is a size other than the declared one. */
  function Close(bits: Bits, out: seq<byte>, w: Bounds): Result<seq<byte>> {
    if |bits| >= 8 then Err(Format)
    else if w.expected.Some? && w.expected.value != |out| then Err(Format)
    else Ok(out)
  }

  function Stream(bits: Bits, out: seq<byte>, w: Bounds): Result<seq<byte>>
    decreases |bits|
  {
    hide BlockBody, TakeBits;
    var (final, n) :- TakeBits(bits, 1);
    var (out', rest) :- BlockBody(n, out, w);
    if final != 0 then Close(rest, out', w) else Stream(rest, out', w)
  }

  function DecodeDeflate64(input: seq<byte>, expected: Option<nat>, maximum: nat, maxDictionary: nat)
    : Result<seq<byte>>
  {
    if HISTORY > maxDictionary then Err(LimitExceeded)
    else if expected.Some? && expected.value > maximum then Err(LimitExceeded)
    else Stream(BytesBits(input), [], Bounds(expected, maximum))
  }

  // ---- writing streams ----

  datatype BlockSpec =
    | Stored(data: seq<byte>, pad: Bits)
    | Fixed(tokens: seq<Token>)
    | Dynamic(header: Header, tokens: seq<Token>)

  predicate SpecOk(out: seq<byte>, b: BlockSpec) {
    match b
    case Stored(data, pad) => |data| <= 0xffff && |pad| < 8
    case Fixed(ts) => AllOk(FIXED_LITERALS, FIXED_DISTANCES, out, ts)
    case Dynamic(h, ts) => HeaderOk(h) && AllOk(h.literals, h.distances, out, ts)
  }

  /** What may follow: a stored block has to end on a byte boundary. */
  predicate Aligned(b: BlockSpec, tail: Bits) {
    b.Stored? ==> |tail| % 8 == 0
  }

  function Produced(out: seq<byte>, b: BlockSpec): (r: seq<byte>)
    requires SpecOk(out, b)
    ensures out <= r
  {
    match b
    case Stored(data, _) => out + data
    case Fixed(ts) => Expand(FIXED_LITERALS, FIXED_DISTANCES, out, ts)
    case Dynamic(h, ts) => Expand(h.literals, h.distances, out, ts)
  }

  function SpecBits(out: seq<byte>, b: BlockSpec, tail: Bits): Bits
    requires SpecOk(out, b)
  {
    match b
    case Stored(data, pad) =>
      Low(0, 2) + (pad + (Low(|data|, 16) + (Low(0xffff - |data|, 16) + (BytesBits(data) + tail))))
    case Fixed(ts) =>
      FixedTreesOk();
      Low(1, 2) + (BlockBits(FIXED_LITERALS, FIXED_DISTANCES, out, ts) + tail)
    case Dynamic(h, ts) =>
      Low(2, 2) + (HeaderBits(h) + (BlockBits(h.literals, h.distances, out, ts) + tail))
  }

  lemma {:induction false} BytesInvert(s: seq<byte>, more: Bits)
    ensures TakeBytes(BytesBits(s) + more, |s|) == Ok((s, more))
  {
    hide TakeBits;
    if s == [] {
      assert BytesBits(s) + more == more;
    } else {
      EightBits();
      var tail := BytesBits(s[1..]) + more;
      assert BytesBits(s) + more == Low(s[0], 8) + tail;
      TakeInverts(s[0], 8, tail);
      BytesInvert(s[1..], more);
      assert s == [s[0]] + s[1..];
    }
  }

  lemma WholeBytes(bits: Bits, k: nat, tail: Bits)
    requires |bits| == 32 + 8 * k + |tail| && |tail| % 8 == 0
    ensures |bits| % 8 == 0
  {
  }

  lemma StoredInverts(data: seq<byte>, pad: Bits, out: seq<byte>, w: Bounds, tail: Bits)
    requires |data| <= 0xffff && |pad| < 8 && |tail| % 8 == 0 && |out| + |data| <= Ceiling(w)
    ensures StoredBlock(pad + (Low(|data|, 16) + (Low(0xffff - |data|, 16) + (BytesBits(data) + tail))), out, w)
         == Ok((out + data, tail))
  {
    hide TakeBits, Low, BytesBits, Ceiling, TakeBytes, Align, Pow2, Reserve;
    EightBits();
    var t3 := BytesBits(data) + tail;
    var t2 := Low(0xffff - |data|, 16) + t3;
    var t1 := Low(|data|, 16) + t2;
    WholeBytes(t1, |data|, tail);
    AlignDrops(pad, t1);
    TakeInverts(|data|, 16, t2);
    TakeInverts(0xffff - |data|, 16, t3);
    BytesInvert(data, tail);
  }

  lemma BodyInverts(out: seq<byte>, b: BlockSpec, tail: Bits, w: Bounds)
    requires SpecOk(out, b) && Aligned(b, tail) && |Produced(out, b)| <= Ceiling(w)
    ensures BlockBody(SpecBits(out, b, tail), out, w) == Ok((Produced(out, b), tail))
  {
    hide TakeBits, StoredBlock, Low, DynamicTrees, Block, BlockBits, AllOk, Expand, HeaderBits, TreesOk, HasCode;
    hide Ceiling;
    EightBits();
    match b
    case Stored(data, pad) =>
      var rest := pad + (Low(|data|, 16) + (Low(0xffff - |data|, 16) + (BytesBits(data) + tail)));
      TakeInverts(0, 2, rest);
      StoredInverts(data, pad, out, w, tail);
    case Fixed(ts) =>
      FixedTreesOk();
      TakeInverts(1, 2, BlockBits(FIXED_LITERALS, FIXED_DISTANCES, out, ts) + tail);
      BlockInverts(FIXED_LITERALS, FIXED_DISTANCES, out, ts, w, tail);
    case Dynamic(h, ts) =>
      HeaderTrees(h);
      var rest := BlockBits(h.literals, h.distances, out, ts) + tail;
      TakeInverts(2, 2, HeaderBits(h) + rest);
      DynamicInverts(h, rest);
      BlockInverts(h.literals, h.distances, out, ts, w, tail);
  }

  lemma HeaderTrees(h: Header)
    requires HeaderOk(h)
    ensures TreesOk(h.literals, h.distances) && HasCode(h.literals, END_OF_BLOCK)
  {
  }

  datatype Written = Written(bits: Bits, out: seq<byte>)

  /** A list of blocks, the last marked final, then fewer than eight bits of padding; none if a block cannot stand. */
  function Write(out: seq<byte>, blocks: seq<BlockSpec>, padding: Bits): Option<Written>
    requires |padding| < 8
    decreases |blocks|
  {
    if blocks == [] || !SpecOk(out, blocks[0]) then None
    else
      var b, next := blocks[0], Produced(out, blocks[0]);
      var last := |blocks| == 1;
      var tail := if last then Some(Written(padding, next)) else Write(next, blocks[1..], padding);
      if tail.None? || !Aligned(b, tail.value.bits) then None
      else Some(Written([if last then 1 else 0] + SpecBits(out, b, tail.value.bits), tail.value.out))
  }

  lemma {:induction false} WriteGrows(out: seq<byte>, blocks: seq<BlockSpec>, padding: Bits)
    requires |padding| < 8 && Write(out, blocks, padding).Some?
    ensures out <= Write(out, blocks, padding).value.out
    decreases |blocks|
  {
    hide SpecOk, Produced, SpecBits, Aligned;
    if |blocks| > 1 {
      WriteGrows(Produced(out, blocks[0]), blocks[1..], padding);
    }
  }

  /** Every stream of stored, fixed and dynamic blocks decodes to what its blocks produce. */
  lemma {:induction false} StreamInverts(out: seq<byte>, blocks: seq<BlockSpec>, padding: Bits, w: Bounds)
    requires |padding| < 8 && Write(out, blocks, padding).Some?
    requires var all := Write(out, blocks, padding).value.out;
             |all| <= Ceiling(w) && (w.expected.Some? ==> |all| == w.expected.value)
    ensures var x := Write(out, blocks, padding).value; Stream(x.bits, out, w) == Ok(x.out)
    decreases |blocks|
  {
    hide SpecOk, Produced, SpecBits, Aligned, BlockBody, TakeBits, Ceiling, Low;
    var b, next := blocks[0], Produced(out, blocks[0]);
    var last := |blocks| == 1;
    var tail := if last then Written(padding, next) else Write(next, blocks[1..], padding).value;
    var bits := SpecBits(out, b, tail.bits);
    FinalBit(if last then 1 else 0, bits);
    if !last {
      WriteGrows(next, blocks[1..], padding);
    }
    BodyInverts(out, b, tail.bits, w);
    if !last {
      StreamInverts(next, blocks[1..], padding, w);
    }
  }

  lemma FinalBit(b: bit, more: Bits)
    ensures TakeBits([b] + more, 1) == Ok((b, more))
  {
    OneBit([b] + more);
  }

  /** Packed into bytes, every such stream round-trips, with its size declared or not. */
  lemma Deflate64Inverts(blocks: seq<BlockSpec>, padding: Bits, expected: Option<nat>, maximum: nat, maxDictionary: nat)
    requires |padding| < 8 && Write([], blocks, padding).Some? && maxDictionary >= HISTORY
    requires var x := Write([], blocks, padding).value;
             |x.bits| % 8 == 0 && |x.out| <= maximum && (expected.Some? ==> expected.value == |x.out|)
    ensures var x := Write([], blocks, padding).value;
            DecodeDeflate64(PackBytes(x.bits), expected, maximum, maxDictionary) == Ok(x.out)
  {
    hide Write, Stream, PackBytes, BytesBits;
    PackedBits(Write([], blocks, padding).value.bits);
    StreamInverts([], blocks, padding, Bounds(expected, maximum));
  }
}
