/** The packed streams of an archive: byte ranges of the file, with digests of their own. */
module PackedStreams {
  import opened Prelude
  import opened BitStrings
  import opened Checksum

  /** The digest of a byte string as a number. */
  function Digest(s: seq<byte>): nat {
    Value(Crc(s))
  }

  predicate Matches(crc: Option<u32>, data: seq<byte>) {
    crc.Some? ==> Digest(data) == crc.value
  }

  const CONTROL_CHUNK_SIZE: nat := 4096

  /** `checksum`: the data in chunks of a fixed size. */
  method ChecksumData(data: seq<byte>) returns (crc: nat)
    ensures crc == Digest(data)
  {
    hide TableUpdate, BitUpdate, Crc32.Valid, IsWord;
    var c := new Crc32();
    StateIsWord(c);
    NoneUpdated(c.state);
    var at := 0;
    while at < |data|
      invariant at <= |data| && c.Valid() && fresh(c)
      invariant c.state == TableUpdate(Ones(), data[..at])
    {
      var end := Min(at + CONTROL_CHUNK_SIZE, |data|);
      assert data[..end] == data[..at] + data[at..end];
      StateIsWord(c);
      UpdateAppend(Ones(), data[..at], data[at..end]);
      c.Update(data[at..end]);
      at := end;
    }
    assert data[..|data|] == data;
    UpdatesAgree(Ones(), data);
    StateIsWord(c);
    var bits := c.Finalize();
    crc := Value(bits);
  }

  lemma NoneUpdated(state: Bits)
    requires IsWord(state)
    ensures TableUpdate(state, []) == state
  {
  }

  lemma StateIsWord(c: Crc32)
    requires c.Valid()
    ensures IsWord(c.state)
  {
  }

  /** Where a packed stream lies in the archive; its size or its digest may be unknown. */
  datatype PackStream = PackStream(offset: u64, size: Option<u64>, crc: Option<u32>)

  /** The archive as a folder sees it: its bytes, its packed streams, and the first one that is the folder's. */
  datatype Packed = Packed(archive: seq<byte>, streams: seq<PackStream>, first: nat)

  /** The bytes of a folder's `k`-th packed stream, if it exists, has a size, lies in the archive and is intact. */
  function PackBytes(x: Packed, k: nat): Result<seq<byte>> {
    if x.first + k >= |x.streams| then Err(Format)
    else
      var s := x.streams[x.first + k];
      if s.size.None? then Err(Unsupported)
      else if s.offset + s.size.value > |x.archive| then Err(Format)
      else
        var bytes := x.archive[s.offset..s.offset + s.size.value];
        if Matches(s.crc, bytes) then Ok(bytes) else Err(Error.Checksum)
  }

  /** The first `n` packed streams of a folder. */
  function AllPacks(x: Packed, n: nat): (packs: Result<seq<seq<byte>>>)
    ensures packs.Ok? ==> |packs.value| == n && forall k | 0 <= k < n :: PackBytes(x, k) == Ok(packs.value[k])
    ensures packs.Ok? <==> forall k | 0 <= k < n :: PackBytes(x, k).Ok?
  {
    if n == 0 then Ok([])
    else
      var init :- AllPacks(x, n - 1);
      var last :- PackBytes(x, n - 1);
      Ok(init + [last])
  }

  /** The body of `load_packed_inputs` up to the port. */
  method LoadPack(x: Packed, k: nat) returns (r: Result<seq<byte>>)
    ensures r == PackBytes(x, k)
  {
    hide Digest;
    var index := x.first + k;
    if index >= |x.streams| {
      return Err(Format);
    }
    var stream := x.streams[index];
    if stream.size.None? {
      return Err(Unsupported);
    }
    var end := stream.offset + stream.size.value;
    if end > |x.archive| {
      return Err(Format);
    }
    var bytes := x.archive[stream.offset..end];
    if stream.crc.Some? {
      var crc := ChecksumData(bytes);
      if crc != stream.crc.value {
        return Err(Error.Checksum);
      }
    }
    r := Ok(bytes);
  }
}
