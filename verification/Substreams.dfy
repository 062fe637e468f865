/** Substreams of folders: what the parser counts is what the validator consumes. */
module Substreams {
  import opened Prelude

  const UNKNOWN_SIZE: u64 := 0xffff_ffff_ffff_ffff

  /** A folder before its substreams are known. */
  datatype Draft = Draft(rootSize: Option<u64>, crc: Option<u32>)

  datatype Substream = Substream(size: Option<u64>, crc: Option<u32>)

  // ---- what the parser counts ----

  /** Every substream of a folder but the last has its size written out. */
  function SizesNeeded(count: nat): nat {
    if count <= 1 then 0 else count - 1
  }

  /** A single substream inherits its folder's digest. */
  function DigestsNeeded(count: nat, folderCrc: Option<u32>): nat {
    if count == 1 && folderCrc.Some? then 0 else count
  }

  function SizeTotal(counts: seq<nat>): nat {
    if counts == [] then 0 else SizeTotal(counts[..|counts| - 1]) + SizesNeeded(counts[|counts| - 1])
  }

  function DigestTotal(counts: seq<nat>, crcs: seq<Option<u32>>): nat
    requires |crcs| == |counts|
  {
    if counts == [] then 0
    else
      var k := |counts| - 1;
      DigestTotal(counts[..k], crcs[..k]) + DigestsNeeded(counts[k], crcs[k])
  }

  function Total(counts: seq<nat>): nat {
    if counts == [] then 0 else Total(counts[..|counts| - 1]) + counts[|counts| - 1]
  }

  lemma {:induction false} TotalsInside(counts: seq<nat>, crcs: seq<Option<u32>>)
    requires |crcs| == |counts|
    ensures SizeTotal(counts) <= Total(counts) && DigestTotal(counts, crcs) <= Total(counts)
  {
    if counts != [] {
      var k := |counts| - 1;
      TotalsInside(counts[..k], crcs[..k]);
    }
  }

  lemma {:induction false} TotalGrows(counts: seq<nat>, k: nat)
    requires k <= |counts|
    ensures Total(counts[..k]) <= Total(counts)
    decreases |counts|
  {
    if k < |counts| {
      var init := counts[..|counts| - 1];
      assert init[..k] == counts[..k];
      TotalGrows(init, k);
    } else {
      assert counts[..k] == counts;
    }
  }

  /** The counting loops of `parse_substreams_info`. Past the substream limit nothing is left to overflow. */
  method CountValues(counts: seq<u64>, crcs: seq<Option<u32>>, maximum: u64) returns (r: Result<(u64, u64, u64)>)
    requires |crcs| == |counts|
    ensures r.Ok? <==> Total(counts) <= maximum
    ensures r.Ok? ==> r.value == (Total(counts), SizeTotal(counts), DigestTotal(counts, crcs))
  {
    var total: nat, sizes: nat, digests: nat := 0, 0, 0;
    for k := 0 to |counts|
      invariant total == Total(counts[..k]) && sizes == SizeTotal(counts[..k]) && total <= UNKNOWN_SIZE
    {
      assert counts[..k + 1][..k] == counts[..k];
      TotalGrows(counts, k + 1);
      total := total + counts[k];
      if total > UNKNOWN_SIZE {
        return Err(Format);
      }
      sizes := sizes + if counts[k] == 0 then 0 else counts[k] - 1;
    }
    assert counts[..|counts|] == counts;
    if total > maximum {
      return Err(LimitExceeded);
    }
    for k := 0 to |counts|
      invariant digests == DigestTotal(counts[..k], crcs[..k])
    {
      assert counts[..k + 1][..k] == counts[..k] && crcs[..k + 1][..k] == crcs[..k];
      if counts[k] != 1 || crcs[k].None? {
        digests := digests + counts[k];
      }
    }
    assert crcs[..|crcs|] == crcs;
    TotalsInside(counts, crcs);
    r := Ok((total, sizes, digests));
  }

  // ---- what a folder's substreams are ----

  function OptionalSize(v: u64): Option<u64> {
    if v != UNKNOWN_SIZE then Some(v) else None
  }

  function SumKnown(values: seq<u64>): nat {
    if values == [] then 0
    else
      var last := values[|values| - 1];
      SumKnown(values[..|values| - 1]) + if last != UNKNOWN_SIZE then last else 0
  }

  predicate AllKnown(values: seq<u64>) {
    forall k | 0 <= k < |values| :: values[k] != UNKNOWN_SIZE
  }

  /** The explicit sizes neither overflow nor exceed a folder whose size is known. */
  predicate Fits(draft: Draft, values: seq<u64>) {
    && SumKnown(values) <= UNKNOWN_SIZE
    && (draft.rootSize.Some? && AllKnown(values) ==> SumKnown(values) <= draft.rootSize.value)
  }

  /** The size of the last of several substreams: what the explicit ones leave of the folder, if all are known. */
  function FinalSize(draft: Draft, values: Option<seq<u64>>): Option<u64>
    requires values.Some? ==> Fits(draft, values.value)
  {
    if draft.rootSize.Some? && values.Some? && AllKnown(values.value)
    then Some(draft.rootSize.value - SumKnown(values.value)) else None
  }

  function Nones(n: nat): (s: seq<Option<u64>>)
    ensures |s| == n && forall k | 0 <= k < n :: s[k].None?
  {
    seq(n, k => None)
  }

  /** All sizes of a folder with `count` substreams. */
  function Sizes(draft: Draft, count: nat, values: Option<seq<u64>>): (sizes: seq<Option<u64>>)
    requires count > 1 && values.Some? ==> |values.value| == count - 1 && Fits(draft, values.value)
    ensures |sizes| == count
  {
    if count == 0 then []
    else if count == 1 then [draft.rootSize]
    else
      (if values.Some? then seq(count - 1, k requires 0 <= k < count - 1 => OptionalSize(values.value[k]))
       else Nones(count - 1))
      + [FinalSize(draft, values)]
  }

  function SumSizes(sizes: seq<Option<u64>>): nat
    requires forall k | 0 <= k < |sizes| :: sizes[k].Some?
  {
    if sizes == [] then 0 else SumSizes(sizes[..|sizes| - 1]) + sizes[|sizes| - 1].value
  }

  lemma {:induction false} SumsAgree(values: seq<u64>, sizes: seq<Option<u64>>)
    requires AllKnown(values) && |sizes| == |values|
    requires forall k | 0 <= k < |values| :: sizes[k] == Some(values[k])
    ensures SumSizes(sizes) == SumKnown(values)
    decreases |values|
  {
    if values != [] {
      SumsAgree(values[..|values| - 1], sizes[..|sizes| - 1]);
    }
  }

  /** Known substreams of a known folder partition it: their sizes add up to the root size. */
  lemma SizesPartition(draft: Draft, count: nat, values: Option<seq<u64>>)
    requires count >= 1 && draft.rootSize.Some?
    requires count > 1 ==>
               values.Some? && |values.value| == count - 1 && AllKnown(values.value) && Fits(draft, values.value)
    ensures var sizes := Sizes(draft, count, values);
            (forall k | 0 <= k < |sizes| :: sizes[k].Some?) && SumSizes(sizes) == draft.rootSize.value
  {
    var sizes := Sizes(draft, count, values);
    if count > 1 {
      SumsAgree(values.value, sizes[..count - 1]);
    } else {
      assert sizes[..0] == [];
    }
  }

  /** The digest of each substream: the folder's, the next ones listed, or none. */
  function Digests(draft: Draft, count: nat, listed: Option<seq<Option<u32>>>): (crcs: seq<Option<u32>>)
    requires listed.Some? ==> |listed.value| == DigestsNeeded(count, draft.crc)
    ensures |crcs| == count
  {
    if count == 1 && draft.crc.Some? then [draft.crc]
    else if listed.Some? then listed.value
    else seq(count, k => None)
  }

  function Built(draft: Draft, count: nat, values: Option<seq<u64>>, listed: Option<seq<Option<u32>>>): seq<Substream>
    requires count > 1 && values.Some? ==> |values.value| == count - 1 && Fits(draft, values.value)
    requires listed.Some? ==> |listed.value| == DigestsNeeded(count, draft.crc)
  {
    var sizes, crcs := Sizes(draft, count, values), Digests(draft, count, listed);
    seq(count, k requires 0 <= k < count => Substream(sizes[k], crcs[k]))
  }

  /** The part of an optional list from `at` on, of a given length. */
  function Slice<T>(values: Option<seq<T>>, at: nat, n: nat): Option<seq<T>>
    requires values.Some? ==> at + n <= |values.value|
  {
    if values.None? then None else Some(values.value[at..at + n])
  }

  // ---- the validator ----

  /** The explicit sizes of a folder, with their known sum. */
  method CollectExplicit(values: seq<u64>, sizeCursor: nat, n: nat)
    returns (r: Result<seq<Option<u64>>>, total: nat, allKnown: bool, sizeCursor': nat)
    requires sizeCursor + n <= |values|
    ensures var slice := values[sizeCursor..sizeCursor + n];
            && (r.Ok? <==> SumKnown(slice) <= UNKNOWN_SIZE)
            && (r.Ok? ==> |r.value| == n && forall j | 0 <= j < n :: r.value[j] == OptionalSize(slice[j]))
            && (r.Ok? ==> total == SumKnown(slice) && allKnown == AllKnown(slice) && sizeCursor' == sizeCursor + n)
  {
    var sizes: seq<Option<u64>> := [];
    total, allKnown, sizeCursor' := 0, true, sizeCursor;
    ghost var slice := values[sizeCursor..sizeCursor + n];
    for k := 0 to n
      invariant |sizes| == k && sizeCursor' == sizeCursor + k
      invariant forall j | 0 <= j < k :: sizes[j] == OptionalSize(slice[j])
      invariant total == SumKnown(slice[..k]) <= UNKNOWN_SIZE
      invariant allKnown == AllKnown(slice[..k])
    {
      if sizeCursor' >= |values| {
        return Err(Format), total, allKnown, sizeCursor';
      }
      var value := values[sizeCursor'];
      assert value == slice[k] && slice[..k + 1][..k] == slice[..k];
      SumGrows(slice, k + 1);
      sizeCursor' := sizeCursor' + 1;
      var size := OptionalSize(value);
      if size.Some? {
        total := total + size.value;
        if total > UNKNOWN_SIZE {
          return Err(Format), total, allKnown, sizeCursor';
        }
      } else {
        allKnown := false;
      }
      sizes := sizes + [size];
    }
    assert slice[..n] == slice;
    r := Ok(sizes);
  }

  /** The sizes of `build_substreams`, which moves the size cursor by exactly what the folder needs. */
  method CollectSizes(draft: Draft, count: u64, values: Option<seq<u64>>, sizeCursor: nat)
    returns (r: Result<seq<Option<u64>>>, sizeCursor': nat)
    requires values.Some? ==> sizeCursor + SizesNeeded(count) <= |values.value|
    ensures r.Ok? <==> values.None? || count <= 1 || Fits(draft, Slice(values, sizeCursor, SizesNeeded(count)).value)
    ensures r.Ok? ==> r.value == Sizes(draft, count, Slice(values, sizeCursor, SizesNeeded(count)))
    ensures r.Ok? ==> sizeCursor' == if values.Some? then sizeCursor + SizesNeeded(count) else sizeCursor
  {
    hide SumKnown, AllKnown, OptionalSize;
    sizeCursor' := sizeCursor;
    if count == 0 {
      return Ok([]), sizeCursor';
    }
    if count == 1 {
      return Ok([draft.rootSize]), sizeCursor';
    }
    if values.None? {
      return Ok(Nones(count - 1) + [None]), sizeCursor';
    }
    var sizes, total, allKnown;
    sizes, total, allKnown, sizeCursor' := CollectExplicit(values.value, sizeCursor, count - 1);
    if sizes.Err? {
      return sizes, sizeCursor';
    }
    if draft.rootSize.Some? && allKnown {
      if draft.rootSize.value < total {
        return Err(Format), sizeCursor';
      }
      return Ok(sizes.value + [Some(draft.rootSize.value - total)]), sizeCursor';
    }
    return Ok(sizes.value + [None]), sizeCursor';
  }

  lemma {:induction false} SumGrows(values: seq<u64>, k: nat)
    requires k <= |values|
    ensures SumKnown(values[..k]) <= SumKnown(values)
    decreases |values|
  {
    if k < |values| {
      var init := values[..|values| - 1];
      assert init[..k] == values[..k];
      SumGrows(init, k);
    } else {
      assert values[..k] == values;
    }
  }

  method CollectDigests(draft: Draft, sizes: seq<Option<u64>>, listed: Option<seq<Option<u32>>>, crcCursor: nat)
    returns (r: Result<seq<Substream>>, crcCursor': nat)
    requires listed.Some? ==> crcCursor + DigestsNeeded(|sizes|, draft.crc) <= |listed.value|
    ensures r.Ok? && |r.value| == |sizes|
    ensures var crcs := Digests(draft, |sizes|, Slice(listed, crcCursor, DigestsNeeded(|sizes|, draft.crc)));
            forall k | 0 <= k < |sizes| :: r.value[k] == Substream(sizes[k], crcs[k])
    ensures crcCursor' == if listed.Some? then crcCursor + DigestsNeeded(|sizes|, draft.crc) else crcCursor
  {
    var inherit := |sizes| == 1 && draft.crc.Some?;
    var streams: seq<Substream> := [];
    crcCursor' := crcCursor;
    for k := 0 to |sizes|
      invariant |streams| == k
      invariant crcCursor' == if listed.Some? && !inherit then crcCursor + k else crcCursor
      invariant forall j | 0 <= j < k :: streams[j] == Substream(sizes[j],
          if inherit then draft.crc else if listed.Some? then listed.value[crcCursor + j] else None)
    {
      var crc := draft.crc;
      if !inherit {
        if listed.Some? {
          if crcCursor' >= |listed.value| {
            return Err(Format), crcCursor';
          }
          crc := listed.value[crcCursor'];
          crcCursor' := crcCursor' + 1;
        } else {
          crc := None;
        }
      }
      streams := streams + [Substream(sizes[k], crc)];
    }
    r := Ok(streams);
  }

  /** What `build_substreams` takes from the lists at its two cursors. */
  ghost predicate Available(draft: Draft, count: nat, values: Option<seq<u64>>, sizeCursor: nat,
                            listed: Option<seq<Option<u32>>>, crcCursor: nat) {
    && (values.Some? ==> sizeCursor + SizesNeeded(count) <= |values.value|)
    && (listed.Some? ==> crcCursor + DigestsNeeded(count, draft.crc) <= |listed.value|)
  }

  ghost predicate FolderFits(draft: Draft, count: nat, values: Option<seq<u64>>, sizeCursor: nat)
    requires values.Some? ==> sizeCursor + SizesNeeded(count) <= |values.value|
  {
    values.None? || count <= 1 || Fits(draft, Slice(values, sizeCursor, SizesNeeded(count)).value)
  }

  ghost function FolderBuilt(draft: Draft, count: nat, values: Option<seq<u64>>, sizeCursor: nat,
                             listed: Option<seq<Option<u32>>>, crcCursor: nat): seq<Substream>
    requires Available(draft, count, values, sizeCursor, listed, crcCursor)
    requires FolderFits(draft, count, values, sizeCursor)
  {
    Built(draft, count, Slice(values, sizeCursor, SizesNeeded(count)),
          Slice(listed, crcCursor, DigestsNeeded(count, draft.crc)))
  }

  method BuildSubstreams(draft: Draft, count: u64, values: Option<seq<u64>>, sizeCursor: nat,
                         listed: Option<seq<Option<u32>>>, crcCursor: nat)
    returns (r: Result<seq<Substream>>, sizeCursor': nat, crcCursor': nat)
    requires Available(draft, count, values, sizeCursor, listed, crcCursor)
    ensures r.Ok? <==> FolderFits(draft, count, values, sizeCursor)
    ensures r.Ok? ==> r.value == FolderBuilt(draft, count, values, sizeCursor, listed, crcCursor)
    ensures r.Ok? ==>
              && sizeCursor' == (if values.Some? then sizeCursor + SizesNeeded(count) else sizeCursor)
              && crcCursor' == (if listed.Some? then crcCursor + DigestsNeeded(count, draft.crc) else crcCursor)
  {
    hide Fits, Sizes, Digests;
    crcCursor' := crcCursor;
    var sizes;
    sizes, sizeCursor' := CollectSizes(draft, count, values, sizeCursor);
    if sizes.Err? {
      return Err(sizes.error), sizeCursor', crcCursor';
    }
    r, crcCursor' := CollectDigests(draft, sizes.value, listed, crcCursor);
  }

  function CrcsOf(drafts: seq<Draft>): (crcs: seq<Option<u32>>)
    ensures |crcs| == |drafts|
  {
    seq(|drafts|, k requires 0 <= k < |drafts| => drafts[k].crc)
  }

  /** Lists as long as the parser's counts say: what every parsed header has. */
  ghost predicate Counted(drafts: seq<Draft>, counts: seq<nat>, values: Option<seq<u64>>,
                          listed: Option<seq<Option<u32>>>)
  {
    && |counts| == |drafts|
    && (values.Some? ==> |values.value| == SizeTotal(counts))
    && (listed.Some? ==> |listed.value| == DigestTotal(counts, CrcsOf(drafts)))
  }

  lemma {:induction false} SizeTotalGrows(counts: seq<nat>, k: nat)
    requires k < |counts|
    ensures SizeTotal(counts[..k]) + SizesNeeded(counts[k]) <= SizeTotal(counts)
    decreases |counts|
  {
    var init := counts[..|counts| - 1];
    if k < |init| {
      assert init[..k] == counts[..k];
      SizeTotalGrows(init, k);
    }
  }

  lemma {:induction false} DigestTotalGrows(counts: seq<nat>, crcs: seq<Option<u32>>, k: nat)
    requires k < |counts| == |crcs|
    ensures DigestTotal(counts[..k], crcs[..k]) + DigestsNeeded(counts[k], crcs[k]) <= DigestTotal(counts, crcs)
    decreases |counts|
  {
    var m := |counts| - 1;
    if k < m {
      assert counts[..m][..k] == counts[..k] && crcs[..m][..k] == crcs[..k];
      DigestTotalGrows(counts[..m], crcs[..m], k);
    }
  }

  /** Each folder finds what it needs at the cursors: the "too short" errors cannot occur. */
  lemma FolderAvailable(drafts: seq<Draft>, counts: seq<nat>, values: Option<seq<u64>>,
                        listed: Option<seq<Option<u32>>>, k: nat)
    requires Counted(drafts, counts, values, listed) && k < |drafts|
    ensures Available(drafts[k], counts[k], values, SizeTotal(counts[..k]),
                      listed, DigestTotal(counts[..k], CrcsOf(drafts)[..k]))
  {
    SizeTotalGrows(counts, k);
    DigestTotalGrows(counts, CrcsOf(drafts), k);
  }

  ghost predicate FitsAt(drafts: seq<Draft>, counts: seq<nat>, values: Option<seq<u64>>,
                         listed: Option<seq<Option<u32>>>, k: nat)
    requires Counted(drafts, counts, values, listed) && k < |drafts|
  {
    FolderAvailable(drafts, counts, values, listed, k);
    FolderFits(drafts[k], counts[k], values, SizeTotal(counts[..k]))
  }

  /** The substreams of folder `k`: its slices of the two lists. */
  ghost predicate BuiltAt(drafts: seq<Draft>, counts: seq<nat>, values: Option<seq<u64>>,
                          listed: Option<seq<Option<u32>>>, k: nat, streams: seq<Substream>)
    requires Counted(drafts, counts, values, listed) && k < |drafts| && FitsAt(drafts, counts, values, listed, k)
  {
    FolderAvailable(drafts, counts, values, listed, k);
    streams == FolderBuilt(drafts[k], counts[k], values, SizeTotal(counts[..k]),
                           listed, DigestTotal(counts[..k], CrcsOf(drafts)[..k]))
  }

  ghost predicate AllFit(drafts: seq<Draft>, counts: seq<nat>, values: Option<seq<u64>>,
                         listed: Option<seq<Option<u32>>>, upTo: nat)
    requires Counted(drafts, counts, values, listed) && upTo <= |drafts|
  {
    forall k | 0 <= k < upTo :: FitsAt(drafts, counts, values, listed, k)
  }

  ghost predicate AllBuilt(drafts: seq<Draft>, counts: seq<nat>, values: Option<seq<u64>>,
                           listed: Option<seq<Option<u32>>>, folders: seq<seq<Substream>>)
    requires Counted(drafts, counts, values, listed) && |folders| <= |drafts|
    requires AllFit(drafts, counts, values, listed, |folders|)
  {
    forall k | 0 <= k < |folders| :: BuiltAt(drafts, counts, values, listed, k, folders[k])
  }

  /** The cursors before folder `k`. */
  ghost predicate CursorsAt(drafts: seq<Draft>, counts: seq<nat>, values: Option<seq<u64>>,
                            listed: Option<seq<Option<u32>>>, k: nat, sizeCursor: nat, crcCursor: nat)
    requires Counted(drafts, counts, values, listed) && k <= |drafts|
  {
    && (values.Some? ==> sizeCursor == SizeTotal(counts[..k]))
    && (listed.Some? ==> crcCursor == DigestTotal(counts[..k], CrcsOf(drafts)[..k]))
  }

  method BuildNext(drafts: seq<Draft>, counts: seq<u64>, values: Option<seq<u64>>, listed: Option<seq<Option<u32>>>,
                   k: nat, sizeCursor: nat, crcCursor: nat)
    returns (r: Result<seq<Substream>>, sizeCursor': nat, crcCursor': nat)
    requires Counted(drafts, counts, values, listed) && k < |drafts|
    requires CursorsAt(drafts, counts, values, listed, k, sizeCursor, crcCursor)
    ensures r.Ok? <==> FitsAt(drafts, counts, values, listed, k)
    ensures r.Ok? ==> BuiltAt(drafts, counts, values, listed, k, r.value)
    ensures r.Ok? ==> CursorsAt(drafts, counts, values, listed, k + 1, sizeCursor', crcCursor')
  {
    hide FolderFits, FolderBuilt, Fits;
    ghost var crcs := CrcsOf(drafts);
    FolderAvailable(drafts, counts, values, listed, k);
    SameCursors(drafts[k], counts[k], values, sizeCursor, SizeTotal(counts[..k]),
                listed, crcCursor, DigestTotal(counts[..k], crcs[..k]));
    assert counts[..k + 1][..k] == counts[..k] && crcs[..k + 1][..k] == crcs[..k];
    r, sizeCursor', crcCursor' := BuildSubstreams(drafts[k], counts[k], values, sizeCursor, listed, crcCursor);
  }

  /** The folder loop of `validate_streams`: the only error is a folder whose explicit sizes do not fit.
      No list is too short for a folder, and none has values left over. */
  method BuildAll(drafts: seq<Draft>, counts: seq<u64>, values: Option<seq<u64>>, listed: Option<seq<Option<u32>>>)
    returns (r: Result<seq<seq<Substream>>>)
    requires Counted(drafts, counts, values, listed)
    ensures r.Ok? <==> AllFit(drafts, counts, values, listed, |drafts|)
    ensures r.Ok? ==> |r.value| == |drafts| && AllBuilt(drafts, counts, values, listed, r.value)
  {
    hide FitsAt, BuiltAt;
    var folders: seq<seq<Substream>> := [];
    var sizeCursor: nat, crcCursor: nat := 0, 0;
    for k := 0 to |drafts|
      invariant |folders| == k && CursorsAt(drafts, counts, values, listed, k, sizeCursor, crcCursor)
      invariant AllFit(drafts, counts, values, listed, k) && AllBuilt(drafts, counts, values, listed, folders)
    {
      var streams;
      streams, sizeCursor, crcCursor := BuildNext(drafts, counts, values, listed, k, sizeCursor, crcCursor);
      if streams.Err? {
        return Err(streams.error);
      }
      folders := folders + [streams.value];
    }
    assert counts[..|counts|] == counts && CrcsOf(drafts)[..|drafts|] == CrcsOf(drafts);
    if values.Some? && sizeCursor != |values.value| {
      return Err(Format);
    }
    if listed.Some? && crcCursor != |listed.value| {
      return Err(Format);
    }
    r := Ok(folders);
  }

  /** A cursor into a list that is absent does not matter. */
  lemma SameCursors(draft: Draft, count: nat, values: Option<seq<u64>>, a: nat, a': nat,
                    listed: Option<seq<Option<u32>>>, b: nat, b': nat)
    requires Available(draft, count, values, a', listed, b')
    requires (values.Some? ==> a == a') && (listed.Some? ==> b == b')
    ensures Available(draft, count, values, a, listed, b)
    ensures FolderFits(draft, count, values, a) <==> FolderFits(draft, count, values, a')
    ensures FolderFits(draft, count, values, a) ==>
              FolderBuilt(draft, count, values, a, listed, b) == FolderBuilt(draft, count, values, a', listed, b')
  {
  }
}
