/** The stored-block Deflate64 writer, which the decoder inverts. */
module Deflate64Stored {
  import opened Prelude
  import opened BitStrings
  import opened Deflate64Bits
  import opened Deflate64Tables
  import opened Deflate64Blocks
  import opened Deflate64Stream

  const STORED_LIMIT: nat := 0xffff

  function LittlePair(n: nat): (s: seq<byte>)
    requires n <= 0xffff
    ensures |s| == 2
  {
    [n % 0x100, n / 0x100]
  }

  function Head(final: bool, n: nat): seq<byte>
    requires n <= 0xffff
  {
    [if final then 1 else 0] + LittlePair(n) + LittlePair(0xffff - n)
  }

  /** Blocks of at most 65535 bytes; no bytes at all still make one block. */
  function StoredChunks(s: seq<byte>): seq<byte>
    decreases |s|
  {
    if |s| <= STORED_LIMIT then Head(true, |s|) + s
    else Head(false, STORED_LIMIT) + s[..STORED_LIMIT] + StoredChunks(s[STORED_LIMIT..])
  }

  method DeflateStored(source: seq<byte>) returns (packed: seq<byte>)
    ensures packed == StoredChunks(source)
  {
    hide LittlePair, StoredChunks;
    packed := [];
    if source == [] {
      EmptyChunk();
      return packed + [1, 0, 0, 0xff, 0xff];
    }
    var at: nat := 0;
    assert source[at..] == source;
    while at < |source|
      invariant at <= |source|
      invariant StoredChunks(source) == packed + if at == |source| then [] else StoredChunks(source[at..])
    {
      ghost var before := packed;
      var last := |source| - at <= STORED_LIMIT;
      var end := if last then |source| else at + STORED_LIMIT;
      var chunk := source[at..end];
      packed := packed + [if last then 1 else 0];
      packed := packed + LittlePair(|chunk|);
      packed := packed + LittlePair(0xffff - |chunk|);
      packed := packed + chunk;
      ChunkWritten(before, source[at..], chunk, last, packed);
      assert source[at..][|chunk|..] == source[end..];
      at := end;
    }
  }

  lemma EmptyChunk()
    ensures StoredChunks([]) == [1, 0, 0, 0xff, 0xff]
  {
  }

  lemma ChunkWritten(before: seq<byte>, rest: seq<byte>, chunk: seq<byte>, last: bool, packed: seq<byte>)
    requires rest != [] && last == (|rest| <= STORED_LIMIT) && chunk == rest[..Min(|rest|, STORED_LIMIT)]
    requires packed == before + [if last then 1 else 0] + LittlePair(|chunk|) + LittlePair(0xffff - |chunk|) + chunk
    ensures before + StoredChunks(rest) == packed + if last then [] else StoredChunks(rest[|chunk|..])
  {
    hide StoredChunks, LittlePair;
    var f := [if last then 1 else 0];
    var a, b := LittlePair(|chunk|), LittlePair(0xffff - |chunk|);
    UnfoldChunks(rest, chunk, last);
    HeadStays(before, f, a, b, chunk, if last then [] else StoredChunks(rest[|chunk|..]));
  }

  lemma HeadStays(before: seq<byte>, f: seq<byte>, a: seq<byte>, b: seq<byte>, chunk: seq<byte>, tail: seq<byte>)
    ensures before + (f + a + b + chunk + tail) == before + f + a + b + chunk + tail
  {
  }

  lemma UnfoldChunks(rest: seq<byte>, chunk: seq<byte>, last: bool)
    requires last == (|rest| <= STORED_LIMIT) && chunk == rest[..Min(|rest|, STORED_LIMIT)]
    ensures StoredChunks(rest) == Head(last, |chunk|) + chunk + if last then [] else StoredChunks(rest[|chunk|..])
  {
    hide Head;
  }

  lemma PairBits(n: nat)
    requires n <= 0xffff
    ensures Low(LittlePair(n)[0], 8) + Low(LittlePair(n)[1], 8) == Low(n, 16)
  {
    EightBits();
    LowSplit(n, 8, 8, n / 0x100, n % 0x100);
  }

  lemma FirstByteBits(final: bool)
    ensures Low(if final then 1 else 0, 8) == [if final then 1 else 0] + Low(0, 2) + Low(0, 5)
  {
    ZeroBits(7);
    ZeroBits(2);
    ZeroBits(5);
  }

  lemma {:induction false} ZeroBits(n: nat)
    ensures forall i | 0 <= i < n :: Low(0, n)[i] == 0
  {
    if n > 0 { ZeroBits(n - 1); }
  }

  /** The bits of a stored chunk are a block with five zero bits of padding. */
  lemma ChunkBits(final: bool, data: seq<byte>, rest: seq<byte>, out: seq<byte>)
    requires |data| <= STORED_LIMIT
    ensures BytesBits(Head(final, |data|) + data + rest)
         == [if final then 1 else 0] + SpecBits(out, Stored(data, Low(0, 5)), BytesBits(rest))
  {
    hide Low, LittlePair, BytesBits;
    var n := |data|;
    var a, b := LittlePair(n), LittlePair(0xffff - n);
    PairBits(n);
    PairBits(0xffff - n);
    FirstByteBits(final);
    HeadBytes(if final then 1 else 0, a, b, data + rest);
    assert Head(final, n) + data + rest == [if final then 1 else 0] + a + b + (data + rest);
    BytesBitsAppend(data, rest);
    Regroup([if final then 1 else 0], Low(0, 2), Low(0, 5), Low(n, 16), Low(0xffff - n, 16),
            BytesBits(data) + BytesBits(rest));
  }

  lemma Regroup(f: Bits, kind: Bits, pad: Bits, a: Bits, b: Bits, tail: Bits)
    ensures f + kind + pad + a + b + tail == f + (kind + (pad + (a + (b + tail))))
  {
  }

  lemma HeadBytes(f: byte, a: seq<byte>, b: seq<byte>, rest: seq<byte>)
    requires |a| == 2 && |b| == 2
    ensures BytesBits([f] + a + b + rest)
         == Low(f, 8) + (Low(a[0], 8) + Low(a[1], 8)) + (Low(b[0], 8) + Low(b[1], 8)) + BytesBits(rest)
  {
    hide Low;
    BytesBitsAppend([f] + a + b, rest);
    BytesBitsAppend([f] + a, b);
    BytesBitsAppend([f], a);
    OneByte(f);
    TwoBytes(a);
    TwoBytes(b);
  }

  lemma OneByte(b: byte)
    ensures BytesBits([b]) == Low(b, 8)
  {
    hide Low;
    assert [b][1..] == [];
  }

  lemma TwoBytes(s: seq<byte>)
    requires |s| == 2
    ensures BytesBits(s) == Low(s[0], 8) + Low(s[1], 8)
  {
    hide Low;
    OneByte(s[1]);
    assert s[1..] == [s[1]];
  }

  lemma ChunkDecodes(final: bool, data: seq<byte>, rest: seq<byte>, out: seq<byte>, w: Bounds)
    requires |data| <= STORED_LIMIT && |out| + |data| <= Ceiling(w)
    ensures Stream(BytesBits(Head(final, |data|) + data + rest), out, w)
         == if final then Close(BytesBits(rest), out + data, w) else Stream(BytesBits(rest), out + data, w)
  {
    hide BlockBody, TakeBits, Low, BytesBits, Head, Ceiling, SpecBits, Close;
    ChunkBits(final, data, rest, out);
    var b, tail := Stored(data, Low(0, 5)), BytesBits(rest);
    FinalBit(if final then 1 else 0, SpecBits(out, b, tail));
    BodyInverts(out, b, tail, w);
  }

  /** The writer's chunks decode to its input, one block each. */
  lemma {:induction false} ChunksDecode(s: seq<byte>, out: seq<byte>, w: Bounds)
    requires |out| + |s| <= Ceiling(w) && (w.expected.Some? ==> w.expected.value == |out| + |s|)
    ensures Stream(BytesBits(StoredChunks(s)), out, w) == Ok(out + s)
    decreases |s|
  {
    hide Stream, Head, Ceiling;
    if |s| <= STORED_LIMIT {
      assert StoredChunks(s) == Head(true, |s|) + s + [];
      ChunkDecodes(true, s, [], out, w);
    } else {
      var data, rest := s[..STORED_LIMIT], s[STORED_LIMIT..];
      ChunkDecodes(false, data, StoredChunks(rest), out, w);
      ChunksDecode(rest, out + data, w);
      assert out + data + rest == out + s;
    }
  }

  /** `decode_deflate64(deflate_stored(s)) == s`, for every byte string and any number of blocks. */
  lemma StoredInverse(source: seq<byte>, expected: Option<nat>, maximum: nat, maxDictionary: nat)
    requires |source| <= maximum && maxDictionary >= HISTORY && (expected.Some? ==> expected.value == |source|)
    ensures DecodeDeflate64(StoredChunks(source), expected, maximum, maxDictionary) == Ok(source)
  {
    hide Stream, StoredChunks, BytesBits;
    ChunksDecode(source, [], Bounds(expected, maximum));
    assert [] + source == source;
  }
}
