/** From the folders of an archive to the bytes of its substream section and back. */
module SubstreamsRoundTrip {
  import opened Prelude
  import opened HeaderNumbers
  import opened Substreams
  import opened SubstreamsInfo

  /** The substream section as the program reads it: parsed, and then cut up among the folders. The lists always have
      the lengths that the folders consume, so it fails only in the bytes or where explicit sizes do not fit. */
  method ReadFolders(reader: BoundedReader, drafts: seq<Draft>, maximum: u64) returns (r: Result<seq<seq<Substream>>>)
    requires reader.Valid()
    modifies reader
    ensures reader.Valid()
    ensures var x := ReadInfo(old(reader.Rest()), CrcsOf(drafts), maximum);
            && (x.Ok? ==> Counted(drafts, x.value.0.counts, x.value.0.values, x.value.0.listed))
            && (r.Ok? <==>
                  x.Ok? && AllFit(drafts, x.value.0.counts, x.value.0.values, x.value.0.listed, |drafts|))
            && (r.Ok? ==>
                  && |r.value| == |drafts|
                  && AllBuilt(drafts, x.value.0.counts, x.value.0.values, x.value.0.listed, r.value)
                  && reader.Rest() == x.value.1)
  {
    hide ReadInfo, AllFit, AllBuilt, SizeTotal, DigestTotal;
    var info :- ParseSubstreamsInfo(reader, CrcsOf(drafts), maximum);
    r := BuildAll(drafts, info.counts, info.values, info.listed);
  }

  // ---- what a writer says about folders ----

  function WrittenSize(size: Option<u64>): u64 {
    if size.Some? then size.value else UNKNOWN_SIZE
  }

  /** The sizes of all substreams but the last. */
  function Explicit(streams: seq<Substream>): (values: seq<u64>)
    ensures |values| == SizesNeeded(|streams|)
  {
    seq(SizesNeeded(|streams|), k requires 0 <= k < |streams| => WrittenSize(streams[k].size))
  }

  /** The digests, unless the only substream has that of its folder. */
  function OwnCrcs(draft: Draft, streams: seq<Substream>): (crcs: seq<Option<u32>>)
    ensures |crcs| == DigestsNeeded(|streams|, draft.crc)
  {
    if |streams| == 1 && draft.crc.Some? then []
    else seq(|streams|, k requires 0 <= k < |streams| => streams[k].crc)
  }

  /** Substreams the section can express: one is its folder, and the last of several is what the others leave. */
  ghost predicate Expressible(draft: Draft, streams: seq<Substream>) {
    && |streams| <= UNKNOWN_SIZE
    && (forall k | 0 <= k < |streams| :: streams[k].size != Some(UNKNOWN_SIZE))
    && (|streams| == 1 ==>
          streams[0].size == draft.rootSize && (draft.crc.Some? ==> streams[0].crc == draft.crc))
    && (|streams| > 1 ==>
          && Fits(draft, Explicit(streams))
          && streams[|streams| - 1].size == FinalSize(draft, Some(Explicit(streams))))
  }

  lemma BuildsBack(draft: Draft, streams: seq<Substream>)
    requires Expressible(draft, streams)
    ensures Built(draft, |streams|, Some(Explicit(streams)), Some(OwnCrcs(draft, streams))) == streams
  {
    hide Fits, FinalSize;
    var n := |streams|;
    var sizes := Sizes(draft, n, Some(Explicit(streams)));
    forall k | 0 <= k < n ensures sizes[k] == streams[k].size {
      if 1 < n && k < n - 1 {
        assert Explicit(streams)[k] == WrittenSize(streams[k].size);
      }
    }
  }

  function CountsOf(folders: seq<seq<Substream>>): (counts: seq<nat>)
    ensures |counts| == |folders|
  {
    seq(|folders|, k requires 0 <= k < |folders| => |folders[k]|)
  }

  lemma CountsPrefix(folders: seq<seq<Substream>>, k: nat)
    requires k <= |folders|
    ensures CountsOf(folders)[..k] == CountsOf(folders[..k])
    ensures k < |folders| ==> CountsOf(folders)[k] == |folders[k]|
  {
  }

  lemma CrcsOfPrefix(drafts: seq<Draft>, k: nat)
    requires k <= |drafts|
    ensures CrcsOf(drafts)[..k] == CrcsOf(drafts[..k])
    ensures k < |drafts| ==> CrcsOf(drafts)[k] == drafts[k].crc
  {
  }

  function AllExplicit(folders: seq<seq<Substream>>): (values: seq<u64>)
    ensures |values| == SizeTotal(CountsOf(folders))
  {
    hide CountsOf;
    if folders == [] then []
    else
      var k := |folders| - 1;
      CountsPrefix(folders, k);
      AllExplicit(folders[..k]) + Explicit(folders[k])
  }

  function AllCrcs(drafts: seq<Draft>, folders: seq<seq<Substream>>): (crcs: seq<Option<u32>>)
    requires |drafts| == |folders|
    ensures |crcs| == DigestTotal(CountsOf(folders), CrcsOf(drafts))
  {
    hide CountsOf, CrcsOf;
    if folders == [] then []
    else
      var k := |folders| - 1;
      CountsPrefix(folders, k);
      CrcsOfPrefix(drafts, k);
      AllCrcs(drafts[..k], folders[..k]) + OwnCrcs(drafts[k], folders[k])
  }

  /** The lists of the first folders begin the lists of all. */
  lemma {:induction false} ExplicitPrefix(folders: seq<seq<Substream>>, k: nat)
    requires k <= |folders|
    ensures AllExplicit(folders[..k]) <= AllExplicit(folders)
    decreases |folders|
  {
    hide CountsOf, SizeTotal, Explicit;
    if k < |folders| {
      var init := folders[..|folders| - 1];
      assert init[..k] == folders[..k];
      ExplicitPrefix(init, k);
    } else {
      assert folders[..k] == folders;
    }
  }

  lemma {:induction false} CrcsPrefix(drafts: seq<Draft>, folders: seq<seq<Substream>>, k: nat)
    requires k <= |folders| == |drafts|
    ensures AllCrcs(drafts[..k], folders[..k]) <= AllCrcs(drafts, folders)
    decreases |folders|
  {
    hide CountsOf, CrcsOf, DigestTotal, OwnCrcs;
    if k < |folders| {
      var m := |folders| - 1;
      assert folders[..m][..k] == folders[..k] && drafts[..m][..k] == drafts[..k];
      CrcsPrefix(drafts[..m], folders[..m], k);
    } else {
      assert folders[..k] == folders && drafts[..k] == drafts;
    }
  }

  /** Each folder finds its own sizes and digests at its place in the lists. */
  lemma ExplicitAt(folders: seq<seq<Substream>>, k: nat)
    requires k < |folders|
    ensures var at, own := SizeTotal(CountsOf(folders)[..k]), Explicit(folders[k]);
            at + |own| <= |AllExplicit(folders)| && AllExplicit(folders)[at..at + |own|] == own
  {
    hide CountsOf, SizeTotal, Explicit;
    var part := folders[..k + 1];
    ExplicitPrefix(folders, k + 1);
    CountsPrefix(folders, k);
    assert part[..k] == folders[..k];
    assert AllExplicit(part) == AllExplicit(folders[..k]) + Explicit(folders[k]);
    SlicePrefix(AllExplicit(folders), AllExplicit(folders[..k]), Explicit(folders[k]));
  }

  lemma CrcsAt(drafts: seq<Draft>, folders: seq<seq<Substream>>, k: nat)
    requires k < |folders| == |drafts|
    ensures var at, own := DigestTotal(CountsOf(folders)[..k], CrcsOf(drafts)[..k]), OwnCrcs(drafts[k], folders[k]);
            at + |own| <= |AllCrcs(drafts, folders)| && AllCrcs(drafts, folders)[at..at + |own|] == own
  {
    hide CountsOf, CrcsOf, DigestTotal, OwnCrcs;
    var part, heads := folders[..k + 1], drafts[..k + 1];
    CrcsPrefix(drafts, folders, k + 1);
    CountsPrefix(folders, k);
    CrcsOfPrefix(drafts, k);
    assert part[..k] == folders[..k] && heads[..k] == drafts[..k];
    assert AllCrcs(heads, part) == AllCrcs(drafts[..k], folders[..k]) + OwnCrcs(drafts[k], folders[k]);
    SlicePrefix(AllCrcs(drafts, folders), AllCrcs(drafts[..k], folders[..k]), OwnCrcs(drafts[k], folders[k]));
  }

  lemma SlicePrefix<T>(s: seq<T>, a: seq<T>, b: seq<T>)
    requires a + b <= s
    ensures |a| + |b| <= |s| && s[|a|..|a| + |b|] == b
  {
  }

  // ---- the round trip ----

  /** The section of given folders, with both lists. */
  function InfoOf(drafts: seq<Draft>, folders: seq<seq<Substream>>): (info: Info)
    requires |drafts| == |folders| && forall k | 0 <= k < |folders| :: |folders[k]| <= UNKNOWN_SIZE
    ensures Sized(info, CrcsOf(drafts))
  {
    Info(CountsOf(folders), Some(AllExplicit(folders)), Some(AllCrcs(drafts, folders)))
  }

  ghost predicate AllExpressible(drafts: seq<Draft>, folders: seq<seq<Substream>>) {
    |drafts| == |folders| && forall k | 0 <= k < |folders| :: Expressible(drafts[k], folders[k])
  }

  /** The validator cuts the lists of a section back into its folders. */
  lemma CutsBack(drafts: seq<Draft>, folders: seq<seq<Substream>>, k: nat)
    requires AllExpressible(drafts, folders) && k < |folders|
    ensures var i := InfoOf(drafts, folders);
            && Counted(drafts, i.counts, i.values, i.listed) && FitsAt(drafts, i.counts, i.values, i.listed, k)
            && forall streams :: BuiltAt(drafts, i.counts, i.values, i.listed, k, streams) <==> streams == folders[k]
  {
    hide AllExplicit, AllCrcs, SizeTotal, DigestTotal, Explicit, OwnCrcs, Built, Fits, CrcsOf, CountsOf;
    var i := InfoOf(drafts, folders);
    ExplicitAt(folders, k);
    CrcsAt(drafts, folders, k);
    CountsPrefix(folders, k);
    CrcsOfPrefix(drafts, k);
    FolderAvailable(drafts, i.counts, i.values, i.listed, k);
    BuildsBack(drafts[k], folders[k]);
    ExplicitFits(drafts[k], folders[k]);
  }

  lemma ExplicitFits(draft: Draft, streams: seq<Substream>)
    requires Expressible(draft, streams)
    ensures |streams| > 1 ==> Fits(draft, Explicit(streams))
  {
  }

  /** The section of any expressible folders, in any style, is parsed and cut up into those folders and no others. */
  lemma SectionInverse(drafts: seq<Draft>, folders: seq<seq<Substream>>, style: Style, maximum: nat, more: seq<byte>)
    requires AllExpressible(drafts, folders) && StyleOk(InfoOf(drafts, folders), style)
    requires Total(CountsOf(folders)) <= maximum
    ensures var i := InfoOf(drafts, folders);
            && ReadInfo(PrintInfo(i, style) + more, CrcsOf(drafts), maximum) == Ok((i, more))
            && Counted(drafts, i.counts, i.values, i.listed)
            && AllFit(drafts, i.counts, i.values, i.listed, |drafts|)
            && forall built | |built| == |drafts| ::
                 AllBuilt(drafts, i.counts, i.values, i.listed, built) <==> built == folders
  {
    var i := InfoOf(drafts, folders);
    hide InfoOf, ReadInfo, PrintInfo, FitsAt, BuiltAt, Expressible, StyleOk;
    InfoInverse(i, style, CrcsOf(drafts), maximum, more);
    forall k | 0 <= k < |drafts|
      ensures FitsAt(drafts, i.counts, i.values, i.listed, k)
      ensures forall streams :: BuiltAt(drafts, i.counts, i.values, i.listed, k, streams) <==> streams == folders[k]
    {
      CutsBack(drafts, folders, k);
    }
  }
}
