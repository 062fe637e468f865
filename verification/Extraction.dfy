/** Reading members: alone, in natural order through a sink, and verification. */
module Extraction {
  import opened Prelude
  import opened BitStrings
  import opened Checksum
  import opened PackedStreams
  import opened Substreams
  import opened MemberMapping

  datatype Limits = Limits(total: nat, entry: nat)

  datatype Decoded = Decoded(bytes: seq<byte>, crcMismatch: bool)

  /** `decode_folder`: a folder's output under a cap on its size. */
  type FolderDecoder = (nat, nat) -> Result<Decoded>

  datatype Archive = Archive(folders: Folders, roots: seq<Option<u64>>, members: seq<Member>, limits: Limits)

  /** What header validation guarantees. */
  ghost predicate Validated(a: Archive) {
    && |a.roots| == |a.folders| && Natural(a.folders, a.members)
    && forall i | 0 <= i < |a.members| && a.members[i].stream.Some? :: !a.members[i].isAnti && !a.members[i].isEmptyFile
  }

  /** A larger cap changes no output that a smaller one lets through, and no output exceeds its cap. */
  ghost predicate Monotone(d: FolderDecoder) {
    && (forall f: nat, cap: nat, cap': nat :: cap <= cap' && d(f, cap).Ok? ==> d(f, cap') == d(f, cap))
    && (forall f: nat, cap: nat :: d(f, cap).Ok? ==> |d(f, cap).value.bytes| <= cap)
  }

  // ---- sizes of members ----

  /** The first `j` sizes are known. */
  predicate Known(subs: seq<Substream>, j: nat)
    requires j <= |subs|
  {
    forall k | 0 <= k < j :: subs[k].size.Some?
  }

  function Prefix(subs: seq<Substream>, j: nat): nat
    requires j <= |subs| && Known(subs, j)
  {
    if j == 0 then 0 else Prefix(subs, j - 1) + subs[j - 1].size.value
  }

  /** Where substream `j` ends: only the last may leave that to the folder. */
  function MemberEnd(subs: seq<Substream>, j: nat, start: nat, folderSize: nat): Result<nat>
    requires j < |subs|
  {
    if subs[j].size.Some? then Ok(start + subs[j].size.value)
    else if j + 1 == |subs| then Ok(folderSize)
    else Err(Unsupported)
  }

  /** The byte range of a substream: after all those before it. */
  function Bounds(subs: seq<Substream>, j: nat, folderSize: nat): Result<(nat, nat)> {
    if j >= |subs| then Err(Format)
    else if !Known(subs, j) then Err(Unsupported)
    else
      var end :- MemberEnd(subs, j, Prefix(subs, j), folderSize);
      if end > folderSize then Err(Format) else Ok((Prefix(subs, j), end))
  }

  method MemberBounds(subs: seq<Substream>, target: nat, folderSize: nat) returns (r: Result<(nat, nat)>)
    ensures var x := Bounds(subs, target, folderSize); (r.Ok? <==> x.Ok?) && (r.Ok? ==> r.value == x.value)
  {
    if target >= |subs| {
      return Err(Format);
    }
    var start: nat := 0;
    for index := 0 to |subs|
      invariant index <= target && Known(subs, index) && start == Prefix(subs, index)
    {
      if index == target {
        var end :- MemberEnd(subs, index, start, folderSize);
        return if end > folderSize then Err(Format) else Ok((start, end));
      }
      if subs[index].size.None? {
        return Err(Unsupported);
      }
      start := start + subs[index].size.value;
    }
  }

  // ---- how much a folder may decode to ----

  /** The allowance of the first `k` substreams: their sizes, or the entry limit for an unknown last one. */
  function Allowance(subs: seq<Substream>, k: nat, limits: Limits): Result<nat>
    requires k <= |subs|
  {
    if k == 0 then Ok(0)
    else
      var before :- Allowance(subs, k - 1, limits);
      var size := subs[k - 1].size;
      if size.Some? && size.value > limits.entry then Err(LimitExceeded)
      else if size.None? && k != |subs| then Err(Unsupported)
      else if before + (if size.Some? then size.value else limits.entry) > UNKNOWN_SIZE then Err(Format)
      else Ok(before + if size.Some? then size.value else limits.entry)
  }

  function UnknownFinal(subs: seq<Substream>): bool {
    subs != [] && subs[|subs| - 1].size.None?
  }

  function FolderMaximum(subs: seq<Substream>, root: Option<u64>, limits: Limits, remaining: nat): Result<nat> {
    if root.Some? && root.value > remaining then Err(LimitExceeded)
    else if subs == [] then Ok(remaining)
    else
      var permitted :- Allowance(subs, |subs|, limits);
      if !UnknownFinal(subs) && (root.None? || root.value != permitted) then Err(Format)
      else Ok(Min(permitted, remaining))
  }

  method FolderDecodeMaximum(subs: seq<Substream>, root: Option<u64>, limits: Limits, remaining: nat)
    returns (r: Result<nat>)
    ensures var x := FolderMaximum(subs, root, limits, remaining); (r.Ok? <==> x.Ok?) && (r.Ok? ==> r.value == x.value)
  {
    if root.Some? && root.value > remaining {
      return Err(LimitExceeded);
    }
    if subs == [] {
      return Ok(remaining);
    }
    var permitted: nat, hasUnknownFinal := 0, false;
    for index := 0 to |subs|
      invariant Allowance(subs, index, limits) == Ok(permitted)
      invariant hasUnknownFinal == (index == |subs| && UnknownFinal(subs))
    {
      AllowanceNext(subs, index, limits);
      var contribution: nat := limits.entry;
      if subs[index].size.Some? {
        contribution := subs[index].size.value;
        if contribution > limits.entry {
          return Err(LimitExceeded);
        }
      } else if index + 1 == |subs| {
        hasUnknownFinal := true;
      } else {
        return Err(Unsupported);
      }
      permitted := permitted + contribution;
      if permitted > UNKNOWN_SIZE {
        return Err(Format);
      }
    }
    if !hasUnknownFinal && (root.None? || root.value != permitted) {
      return Err(Format);
    }
    r := Ok(Min(permitted, remaining));
  }

  /** Once one substream is refused, so is the folder. */
  lemma AllowanceNext(subs: seq<Substream>, k: nat, limits: Limits)
    requires k < |subs|
    ensures Allowance(subs, k + 1, limits).Err? ==> Allowance(subs, |subs|, limits).Err?
  {
    if Allowance(subs, k + 1, limits).Err? {
      AllowanceFails(subs, k + 1, |subs|, limits);
    }
  }

  lemma {:induction false} AllowanceFails(subs: seq<Substream>, j: nat, k: nat, limits: Limits)
    requires j <= k <= |subs| && Allowance(subs, j, limits).Err?
    ensures Allowance(subs, k, limits).Err?
    decreases k
  {
    if j < k {
      AllowanceFails(subs, j, k - 1, limits);
    }
  }

  /** An allowed folder knows all sizes but possibly the last, each within the entry limit. */
  lemma {:induction false} AllowanceKnows(subs: seq<Substream>, k: nat, limits: Limits)
    requires k <= |subs| && Allowance(subs, k, limits).Ok?
    ensures forall i | 0 <= i < k && i + 1 < |subs| :: subs[i].size.Some?
    ensures forall i | 0 <= i < k && subs[i].size.Some? :: subs[i].size.value <= limits.entry
    ensures Known(subs, k) ==> Allowance(subs, k, limits).value == Prefix(subs, k)
  {
    if k > 0 {
      AllowanceKnows(subs, k - 1, limits);
    }
  }

  // ---- one member ----

  /** The range of a member in its decoded folder, within the entry limit. */
  function Locate(subs: seq<Substream>, j: nat, limits: Limits, size: nat): (x: Result<(nat, nat)>)
    ensures x.Ok? ==> x.value.0 <= x.value.1 <= size
  {
    var (start, end) :- Bounds(subs, j, size);
    if end < start then Err(Format)
    else if end - start > limits.entry then Err(LimitExceeded)
    else Ok((start, end))
  }

  /** A stretch of a decoded folder, with the digest it should have and the verdict on the folder. */
  datatype Opened = Opened(data: seq<byte>, start: nat, end: nat, crc: Option<u32>, folderCrcMismatch: bool)

  /** What `open_member` gives a reader for. */
  function MemberOpened(a: Archive, d: FolderDecoder, i: nat): (x: Result<Opened>)
    requires i < |a.members| && |a.roots| == |a.folders|
    ensures x.Ok? ==> x.value.start <= x.value.end <= |x.value.data|
  {
    var m := a.members[i];
    if m.isAnti then Err(Unsupported)
    else if m.stream.None? then if m.isEmptyFile then Ok(Opened([], 0, 0, None, false)) else Err(Unsupported)
    else
      var s := m.stream.value;
      if s.size.Some? && s.size.value > a.limits.entry then Err(LimitExceeded)
      else if s.folder >= |a.folders| then Err(Format)
      else
        var decoded :- DecodeFull(a, d, s.folder);
        var (start, end) :- Locate(a.folders[s.folder], s.substream, a.limits, |decoded.bytes|);
        Ok(Opened(decoded.bytes, start, end, s.crc, decoded.crcMismatch))
  }

  /** What reading such a member to its end and `finish` give. */
  function MemberBytes(a: Archive, d: FolderDecoder, i: nat): Result<seq<byte>>
    requires i < |a.members| && |a.roots| == |a.folders|
  {
    var x :- MemberOpened(a, d, i);
    if !Matches(x.crc, x.data[x.start..x.end]) || x.folderCrcMismatch then Err(Error.Checksum)
    else Ok(x.data[x.start..x.end])
  }

  /** A folder decoded on its own, with the whole output allowance. */
  function DecodeFull(a: Archive, d: FolderDecoder, f: nat): Result<Decoded>
    requires f < |a.folders| == |a.roots|
  {
    var cap :- FolderMaximum(a.folders[f], a.roots[f], a.limits, a.limits.total);
    d(f, cap)
  }

  class MemberReader {
    const data: seq<byte>
    const start: nat
    const end: nat
    const expectedCrc: Option<u32>
    const folderCrcMismatch: bool
    var position: nat
    const checksum: Crc32

    ghost predicate Valid()
      reads this, checksum
    {
      && start <= end <= |data| && position <= end - start
      && checksum.Valid() && checksum.state == TableUpdate(Ones(), data[start..start + position])
    }

    constructor (data: seq<byte>, start: nat, end: nat, expectedCrc: Option<u32>, folderCrcMismatch: bool)
      requires start <= end <= |data|
      ensures Valid() && position == 0 && fresh(checksum)
      ensures this.data == data && this.start == start && this.end == end
      ensures this.expectedCrc == expectedCrc && this.folderCrcMismatch == folderCrcMismatch
    {
      this.data, this.start, this.end := data, start, end;
      this.expectedCrc, this.folderCrcMismatch, position := expectedCrc, folderCrcMismatch, 0;
      var c := new Crc32();
      checksum := c;
    }

    /** The next bytes of the member, at most `limit`; none at its end. */
    method ReadChunk(limit: nat) returns (chunk: seq<byte>)
      requires Valid()
      modifies this, checksum
      ensures Valid() && position == old(position) + |chunk|
      ensures chunk == data[start..end][old(position)..position]
      ensures chunk == [] <==> limit == 0 || old(position) == end - start
    {
      hide Crc32.Valid, IsWord, TableUpdate;
      ghost var whole := data[start..end];
      if limit == 0 || position >= end - start {
        assert whole[position..position] == [];
        return [];
      }
      var count := Min(end - start - position, limit);
      var absolute := start + position;
      chunk := data[absolute..absolute + count];
      SliceWithin(data, start, end, position, position + count);
      checksum.Update(chunk);
      WordHolds(checksum);
      UpdateMore(data[start..absolute], chunk, data[start..absolute + count]);
      position := position + count;
    }

    /** Success only if all the member's bytes have its digest and the folder has its own. */
    method Finish() returns (r: Result<()>)
      requires Valid()
      modifies this, checksum
      ensures r.Ok? <==> Matches(expectedCrc, data[start..end]) && !folderCrcMismatch
    {
      hide TableUpdate, BitUpdate, Crc32.Valid;
      while true
        invariant Valid()
        decreases end - start - position
      {
        var chunk := ReadChunk(8192);
        if chunk == [] {
          break;
        }
      }
      assert data[start..start + position] == data[start..end];
      UpdatesAgree(Ones(), data[start..end]);
      WordHolds(checksum);
      if expectedCrc.Some? {
        var crc := checksum.Finalize();
        if Value(crc) != expectedCrc.value {
          return Err(Error.Checksum);
        }
      }
      if folderCrcMismatch {
        return Err(Error.Checksum);
      }
      r := Ok(());
    }
  }

  lemma WordHolds(c: Crc32)
    requires c.Valid()
    ensures IsWord(c.state)
  {
  }

  lemma SliceWithin(data: seq<byte>, start: nat, end: nat, from: nat, to: nat)
    requires from <= to && start + to <= end <= |data|
    ensures data[start..end][from..to] == data[start + from..start + to]
  {
    assert forall k | 0 <= k < to - from :: data[start..end][from..to][k] == data[start + from..start + to][k];
  }

  lemma UpdateMore(before: seq<byte>, chunk: seq<byte>, after: seq<byte>)
    requires after == before + chunk
    ensures TableUpdate(Ones(), after) == TableUpdate(TableUpdate(Ones(), before), chunk)
  {
    UpdateAppend(Ones(), before, chunk);
  }

  /** A reader over a member, or why there is none. */
  method OpenMember(a: Archive, d: FolderDecoder, i: nat) returns (r: Result<MemberReader>)
    requires i < |a.members| && |a.roots| == |a.folders|
    ensures r.Ok? ==> fresh(r.value) && fresh(r.value.checksum) && r.value.Valid() && r.value.position == 0
    ensures r.Ok? <==> MemberOpened(a, d, i).Ok?
    ensures r.Ok? ==>
              MemberOpened(a, d, i).value
              == Opened(r.value.data, r.value.start, r.value.end, r.value.expectedCrc, r.value.folderCrcMismatch)
  {
    hide FolderMaximum, Bounds;
    var m := a.members[i];
    if m.isAnti {
      return Err(Unsupported);
    }
    if m.stream.None? {
      if m.isEmptyFile {
        var empty := new MemberReader([], 0, 0, None, false);
        return Ok(empty);
      }
      return Err(Unsupported);
    }
    var s := m.stream.value;
    if s.size.Some? && s.size.value > a.limits.entry {
      return Err(LimitExceeded);
    }
    if s.folder >= |a.folders| {
      return Err(Format);
    }
    var cap :- FolderDecodeMaximum(a.folders[s.folder], a.roots[s.folder], a.limits, a.limits.total);
    var decoded :- d(s.folder, cap);
    var bounds :- MemberBounds(a.folders[s.folder], s.substream, |decoded.bytes|);
    var (start, end) := bounds;
    if end < start {
      return Err(Format);
    }
    if end - start > a.limits.entry {
      return Err(LimitExceeded);
    }
    BoundsInside(a.folders[s.folder], s.substream, |decoded.bytes|);
    var reader := new MemberReader(decoded.bytes, start, end, s.crc, decoded.crcMismatch);
    r := Ok(reader);
  }

  lemma BoundsInside(subs: seq<Substream>, j: nat, size: nat)
    ensures Bounds(subs, j, size).Ok? ==> Bounds(subs, j, size).value.1 <= size
  {
  }

  /** `extract_entry`: exactly the member's bytes, and only once all digests match. */
  method ExtractEntry(a: Archive, d: FolderDecoder, i: nat) returns (r: Result<seq<byte>>)
    requires i < |a.members| && |a.roots| == |a.folders|
    ensures var x := MemberBytes(a, d, i); (r.Ok? <==> x.Ok?) && (r.Ok? ==> r.value == x.value)
  {
    hide MemberOpened, Matches, Crc32.Valid, TableUpdate;
    var reader :- OpenMember(a, d, i);
    var output: seq<byte> := [];
    ghost var whole := reader.data[reader.start..reader.end];
    while true
      invariant reader.Valid() && fresh(reader) && fresh(reader.checksum)
      invariant output == whole[..reader.position]
      decreases |whole| - reader.position
    {
      var chunk := reader.ReadChunk(8192);
      if chunk == [] {
        break;
      }
      output := output + chunk;
    }
    assert whole[..|whole|] == whole;
    var finished := reader.Finish();
    r := if finished.Ok? then Ok(output) else Err(finished.error);
  }
}
