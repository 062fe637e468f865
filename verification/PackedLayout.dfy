/** Where packed streams lie, and which folder each of them belongs to. */
module PackedLayout {
  import opened Prelude
  import opened GraphValidation
  import opened PackedStreams

  const UNKNOWN_SIZE: u64 := 0xffff_ffff_ffff_ffff

  lemma SumNext(counts: seq<nat>, k: nat)
    requires k < |counts|
    ensures Sum(counts[..k + 1]) == Sum(counts[..k]) + counts[k]
  {
    assert counts[..k + 1][..k] == counts[..k];
  }

  lemma {:induction false} SumGrows(counts: seq<nat>, j: nat, k: nat)
    requires j <= k <= |counts|
    ensures Sum(counts[..j]) <= Sum(counts[..k])
    decreases k
  {
    if j < k {
      SumGrows(counts, j, k - 1);
      SumNext(counts, k - 1);
    }
  }

  // ---- the streams in the archive ----

  /** Streams stand one behind the other from `start` on. */
  function Placed(sizes: seq<u64>, crcs: seq<Option<u32>>, start: nat, k: nat): (s: PackStream)
    requires k < |sizes| == |crcs| && start + Sum(sizes[..k]) <= UNKNOWN_SIZE
  {
    PackStream(start + Sum(sizes[..k]), Some(sizes[k]), crcs[k])
  }

  /** All sizes are known, and all streams end before the next header and inside the archive. */
  predicate LayoutOk(sizes: seq<u64>, start: nat, limit: nat) {
    && (forall k | 0 <= k < |sizes| :: sizes[k] != UNKNOWN_SIZE)
    && (sizes != [] ==> start + Sum(sizes) <= limit)
  }

  /** What the loop leaves: every stream in its place, and the last one ends inside the archive. */
  ghost predicate Laid(archive: seq<byte>, sizes: seq<u64>, crcs: seq<Option<u32>>, start: nat,
                       streams: seq<PackStream>)
  {
    && |sizes| == |crcs| == |streams|
    && (forall k | 0 <= k < |sizes| ::
          start + Sum(sizes[..k]) <= UNKNOWN_SIZE && streams[k] == Placed(sizes, crcs, start, k))
    && (sizes != [] ==> start + Sum(sizes) <= |archive|)
  }

  /** The loop of `validate_pack_ranges`. */
  method PlaceStreams(sizes: seq<u64>, crcs: seq<Option<u32>>, start: nat, nextHeader: u64, archive: seq<byte>)
    returns (r: Result<seq<PackStream>>)
    requires |crcs| == |sizes|
    ensures r.Ok? <==> LayoutOk(sizes, start, Min(nextHeader, |archive|))
    ensures r.Ok? ==> Laid(archive, sizes, crcs, start, r.value)
  {
    hide Sum;
    assert sizes[..|sizes|] == sizes;
    NothingYet(sizes);
    var streams: seq<PackStream> := [];
    var offset := start;
    for k := 0 to |sizes|
      invariant |streams| == k && offset == start + Sum(sizes[..k])
      invariant forall j | 0 <= j < k :: sizes[j] != UNKNOWN_SIZE
      invariant k > 0 ==> offset <= Min(nextHeader, |archive|)
      invariant forall j | 0 <= j < k ::
                  start + Sum(sizes[..j]) <= UNKNOWN_SIZE && streams[j] == Placed(sizes, crcs, start, j)
    {
      SumNext(sizes, k);
      SumGrows(sizes, k + 1, |sizes|);
      if sizes[k] == UNKNOWN_SIZE {
        return Err(Unsupported);
      }
      var end := offset + sizes[k];
      if end > nextHeader || end > |archive| {
        return Err(Format);
      }
      streams := streams + [PackStream(offset, Some(sizes[k]), crcs[k])];
      offset := end;
    }
    r := Ok(streams);
  }

  lemma NothingYet(counts: seq<nat>)
    ensures Sum(counts[..0]) == 0
  {
  }

  // ---- the streams of a folder ----

  /** The folder loop of `validate_streams`: each folder's streams follow those of the folders before it. */
  method AssignStreams(counts: seq<nat>, streams: nat) returns (r: Result<seq<nat>>)
    ensures r.Ok? <==> Sum(counts) == streams
    ensures r.Ok? ==> |r.value| == |counts| && forall f | 0 <= f < |counts| :: r.value[f] == Sum(counts[..f])
  {
    hide Sum;
    NothingYet(counts);
    var firsts: seq<nat> := [];
    var taken: nat := 0;
    for f := 0 to |counts|
      invariant |firsts| == f && taken == Sum(counts[..f])
      invariant forall g | 0 <= g < f :: firsts[g] == Sum(counts[..g])
    {
      SumNext(counts, f);
      firsts := firsts + [taken];
      taken := taken + counts[f];
    }
    assert counts[..|counts|] == counts;
    if taken != streams {
      return Err(Format);
    }
    r := Ok(firsts);
  }

  /** The stream is one of folder `f`. */
  predicate BelongsTo(counts: seq<nat>, f: nat, stream: nat) {
    f < |counts| && Sum(counts[..f]) <= stream < Sum(counts[..f]) + counts[f]
  }

  /** Every stream belongs to exactly one folder. */
  lemma OneOwner(counts: seq<nat>, stream: nat)
    requires stream < Sum(counts)
    ensures BelongsTo(counts, Owners(counts)[stream], stream)
    ensures forall f: nat | BelongsTo(counts, f, stream) :: f == Owners(counts)[stream]
  {
    hide Sum, Owners;
    PortOfOwner(counts, stream);
    forall f: nat | BelongsTo(counts, f, stream) ensures f == Owners(counts)[stream] {
      OwnerOfPort(counts, f, stream - Sum(counts[..f]));
    }
  }

  // ---- nothing is lost ----

  /** The packed bytes of the first `n` folders, in order. */
  function AllBytes(archive: seq<byte>, streams: seq<PackStream>, counts: seq<nat>, n: nat): Result<seq<byte>>
    requires n <= |counts|
  {
    if n == 0 then Ok([])
    else
      var init :- AllBytes(archive, streams, counts, n - 1);
      var last :- AllPacks(Packed(archive, streams, Sum(counts[..n - 1])), counts[n - 1]);
      Ok(init + Joined(last))
  }

  function Joined(parts: seq<seq<byte>>): seq<byte> {
    if parts == [] then [] else Joined(parts[..|parts| - 1]) + parts[|parts| - 1]
  }

  /** One packed stream of a folder. */
  lemma PackIs(archive: seq<byte>, sizes: seq<u64>, crcs: seq<Option<u32>>, start: nat, streams: seq<PackStream>,
               first: nat, j: nat)
    requires Laid(archive, sizes, crcs, start, streams) && first + j < |sizes|
    requires PackBytes(Packed(archive, streams, first), j).Ok?
    ensures var k := first + j;
            && start + Sum(sizes[..k]) <= start + Sum(sizes[..k + 1]) <= |archive|
            && PackBytes(Packed(archive, streams, first), j).value
               == archive[start + Sum(sizes[..k])..start + Sum(sizes[..k + 1])]
  {
    hide Matches, Sum;
    SumNext(sizes, first + j);
    SumGrows(sizes, first + j + 1, |sizes|);
    assert sizes[..|sizes|] == sizes;
  }

  /** The first `n` packed streams of a folder are one stretch of the archive. */
  lemma {:induction false} FolderStretch(archive: seq<byte>, sizes: seq<u64>, crcs: seq<Option<u32>>, start: nat,
                                         streams: seq<PackStream>, first: nat, n: nat)
    requires Laid(archive, sizes, crcs, start, streams) && first + n <= |sizes| && start <= |archive|
    requires AllPacks(Packed(archive, streams, first), n).Ok?
    ensures start + Sum(sizes[..first]) <= start + Sum(sizes[..first + n]) <= |archive|
    ensures Joined(AllPacks(Packed(archive, streams, first), n).value)
         == archive[start + Sum(sizes[..first])..start + Sum(sizes[..first + n])]
    decreases n
  {
    hide PackBytes, Sum, Laid, AllPacks;
    PacksNext(Packed(archive, streams, first), n);
    WithinArchive(archive, sizes, crcs, start, streams, first + n);
    SumGrows(sizes, first, first + n);
    if n > 0 {
      WithinArchive(archive, sizes, crcs, start, streams, first + n - 1);
      SumGrows(sizes, first, first + n - 1);
      FolderStretch(archive, sizes, crcs, start, streams, first, n - 1);
      PackIs(archive, sizes, crcs, start, streams, first, n - 1);
      Stretched(archive, start + Sum(sizes[..first]), start + Sum(sizes[..first + n - 1]),
                start + Sum(sizes[..first + n]));
    }
  }

  lemma PacksNext(x: Packed, n: nat)
    requires AllPacks(x, n).Ok?
    ensures n == 0 ==> Joined(AllPacks(x, n).value) == []
    ensures n > 0 ==>
              && AllPacks(x, n - 1).Ok? && PackBytes(x, n - 1).Ok?
              && Joined(AllPacks(x, n).value) == Joined(AllPacks(x, n - 1).value) + PackBytes(x, n - 1).value
  {
    hide PackBytes;
    if n > 0 {
      assert AllPacks(x, n).value[..n - 1] == AllPacks(x, n - 1).value;
    }
  }

  lemma Stretched(archive: seq<byte>, from: nat, mid: nat, to: nat)
    requires from <= mid <= to <= |archive|
    ensures archive[from..mid] + archive[mid..to] == archive[from..to]
  {
  }

  lemma WithinArchive(archive: seq<byte>, sizes: seq<u64>, crcs: seq<Option<u32>>, start: nat,
                      streams: seq<PackStream>, k: nat)
    requires Laid(archive, sizes, crcs, start, streams) && k <= |sizes| && start <= |archive|
    ensures start + Sum(sizes[..k]) <= |archive|
  {
    SumGrows(sizes, k, |sizes|);
    assert sizes[..|sizes|] == sizes;
    if sizes == [] { NothingYet(sizes); }
  }

  /** All folders together read the packed area of the archive once, from its first byte to its last. */
  lemma {:induction false} NothingLost(archive: seq<byte>, sizes: seq<u64>, crcs: seq<Option<u32>>, start: nat,
                                       streams: seq<PackStream>, counts: seq<nat>, n: nat)
    requires Laid(archive, sizes, crcs, start, streams) && start <= |archive|
    requires n <= |counts| && Sum(counts) == |sizes| && AllBytes(archive, streams, counts, n).Ok?
    ensures Sum(counts[..n]) <= |sizes| && start + Sum(sizes[..Sum(counts[..n])]) <= |archive|
    ensures AllBytes(archive, streams, counts, n).value == archive[start..start + Sum(sizes[..Sum(counts[..n])])]
    decreases n
  {
    hide AllPacks, Laid, Sum, AllBytes, Joined;
    BytesNext(archive, streams, counts, n);
    assert counts[..|counts|] == counts;
    SumGrows(counts, n, |counts|);
    WithinArchive(archive, sizes, crcs, start, streams, Sum(counts[..n]));
    NothingYet(counts);
    NothingYet(sizes);
    if n > 0 {
      var first := Sum(counts[..n - 1]);
      NothingLost(archive, sizes, crcs, start, streams, counts, n - 1);
      SumNext(counts, n - 1);
      FolderStretch(archive, sizes, crcs, start, streams, first, counts[n - 1]);
      Stretched(archive, start, start + Sum(sizes[..first]), start + Sum(sizes[..Sum(counts[..n])]));
    }
  }

  lemma BytesNext(archive: seq<byte>, streams: seq<PackStream>, counts: seq<nat>, n: nat)
    requires n <= |counts| && AllBytes(archive, streams, counts, n).Ok?
    ensures n == 0 ==> AllBytes(archive, streams, counts, n).value == []
    ensures n > 0 ==>
              var packs := AllPacks(Packed(archive, streams, Sum(counts[..n - 1])), counts[n - 1]);
              && AllBytes(archive, streams, counts, n - 1).Ok? && packs.Ok?
              && AllBytes(archive, streams, counts, n).value
                 == AllBytes(archive, streams, counts, n - 1).value + Joined(packs.value)
  {
    hide AllPacks, Sum, Joined;
  }

  /** No packed stream is handed out unless it has its digest. */
  lemma OnlyIntact(x: Packed, n: nat, k: nat)
    requires AllPacks(x, n).Ok? && k < n
    ensures x.first + k < |x.streams|
    ensures var s, bytes := x.streams[x.first + k], AllPacks(x, n).value[k];
            && s.size.Some? && s.offset + s.size.value <= |x.archive|
            && bytes == x.archive[s.offset..s.offset + s.size.value] && Matches(s.crc, bytes)
  {
    hide Matches;
    assert PackBytes(x, k) == Ok(AllPacks(x, n).value[k]);
  }
}
