/** Which archives verify and extract, said without caps or allowances: those whose folders decode to outputs that
    their declared sizes cut up exactly, within the limits. */
module ExtractionExact {
  import opened Prelude
  import opened PackedStreams
  import opened Substreams
  import opened MemberMapping
  import opened Extraction
  import opened NaturalExtraction

  // ---- what is asked of a folder decoder ----

  /** A cap turns down exactly the outputs that exceed it, and changes nothing else. */
  ghost predicate Precise(d: FolderDecoder) {
    forall f: nat, cap: nat, other: nat | d(f, cap).Ok? ::
      (d(f, other).Ok? <==> |d(f, cap).value.bytes| <= other) && (d(f, other).Ok? ==> d(f, other) == d(f, cap))
  }

  /** A declared root size is the size of the output. */
  ghost predicate Sized(a: Archive, d: FolderDecoder) {
    forall f: nat, cap: nat | f < |a.roots| && a.roots[f].Some? && d(f, cap).Ok? ::
      |d(f, cap).value.bytes| == a.roots[f].value
  }

  lemma PreciseIsMonotone(d: FolderDecoder)
    requires Precise(d)
    ensures Monotone(d)
  {
  }

  // ---- intact folders ----

  /** The bytes in front of substream `j`: all sizes before it, where they are known. */
  function SizeSum(subs: seq<Substream>, j: nat): nat
    requires j <= |subs|
  {
    if j == 0 then 0
    else SizeSum(subs, j - 1) + (if subs[j - 1].size.Some? then subs[j - 1].size.value as nat else 0)
  }

  /** Where substream `j` ends in an output of `size` bytes. */
  function EndOf(subs: seq<Substream>, j: nat, size: nat): nat
    requires j < |subs|
  {
    if subs[j].size.Some? then SizeSum(subs, j + 1) else size
  }

  /** Sizes that cut an output of `size` bytes into its members: all known and adding up to it, with the root size
      declared, or all but the last, which takes what is left. No member exceeds the entry limit. */
  ghost predicate Cuts(subs: seq<Substream>, root: Option<u64>, size: nat, limits: Limits) {
    subs == [] ||
    var last := |subs| - 1;
    && (forall k | 0 <= k < last :: subs[k].size.Some?)
    && (forall k | 0 <= k < |subs| && subs[k].size.Some? :: subs[k].size.value <= limits.entry)
    && if subs[last].size.Some? then root.Some? && SizeSum(subs, |subs|) == size
       else SizeSum(subs, last) <= size <= SizeSum(subs, last) + limits.entry
  }

  /** The one sum the program forms in 64 bits: the known sizes and the entry limit for an unknown last one. */
  predicate SumFits(subs: seq<Substream>, limits: Limits) {
    subs == [] || subs[|subs| - 1].size.Some? || SizeSum(subs, |subs| - 1) + limits.entry <= UNKNOWN_SIZE
  }

  ghost predicate DigestsMatch(subs: seq<Substream>, bytes: seq<byte>) {
    forall j | 0 <= j < |subs| ::
      && SizeSum(subs, j) <= EndOf(subs, j, |bytes|) <= |bytes|
      && Matches(subs[j].crc, bytes[SizeSum(subs, j)..EndOf(subs, j, |bytes|)])
  }

  /** Folder `f` decodes, under some cap, to an output with the right digests that its sizes cut up. */
  ghost predicate Intact(a: Archive, d: FolderDecoder, f: nat, dec: Decoded)
    requires f < |a.folders| == |a.roots|
  {
    && (exists cap: nat :: d(f, cap) == Ok(dec)) && !dec.crcMismatch
    && Cuts(a.folders[f], a.roots[f], |dec.bytes|, a.limits)
    && DigestsMatch(a.folders[f], dec.bytes)
  }

  // ---- the cap is large enough ----

  /** The sum of the permitted sizes. */
  function Allowed(subs: seq<Substream>, k: nat, limits: Limits): nat
    requires k <= |subs|
  {
    SizeSum(subs, k) + if 0 < k == |subs| && subs[k - 1].size.None? then limits.entry else 0
  }

  lemma {:induction false} SumGrowsWith(subs: seq<Substream>, j: nat, k: nat)
    requires j <= k <= |subs|
    ensures SizeSum(subs, j) <= SizeSum(subs, k)
    decreases k
  {
    if j < k { SumGrowsWith(subs, j, k - 1); }
  }

  lemma {:induction false} PrefixIsSum(subs: seq<Substream>, j: nat)
    requires j <= |subs| && Known(subs, j)
    ensures Prefix(subs, j) == SizeSum(subs, j)
  {
    if j > 0 { PrefixIsSum(subs, j - 1); }
  }

  /** Which folders get an allowance, and how much. */
  lemma {:induction false} AllowanceExactly(subs: seq<Substream>, k: nat, limits: Limits)
    requires k <= |subs|
    ensures Allowance(subs, k, limits).Ok? <==>
              && (forall i | 0 <= i < k && i + 1 < |subs| :: subs[i].size.Some?)
              && (forall i | 0 <= i < k && subs[i].size.Some? :: subs[i].size.value <= limits.entry)
              && Allowed(subs, k, limits) <= UNKNOWN_SIZE
    ensures Allowance(subs, k, limits).Ok? ==> Allowance(subs, k, limits).value == Allowed(subs, k, limits)
  {
    if k > 0 {
      AllowanceExactly(subs, k - 1, limits);
    }
  }

  /** The cap of a folder whose sizes cut `size` bytes up lets all of them through. */
  lemma CapSuffices(subs: seq<Substream>, root: Option<u64>, size: nat, limits: Limits, remaining: nat)
    requires Cuts(subs, root, size, limits) && SumFits(subs, limits) && size <= remaining
    requires root.Some? ==> root.value == size
    ensures FolderMaximum(subs, root, limits, remaining).Ok?
    ensures size <= FolderMaximum(subs, root, limits, remaining).value
  {
    if subs != [] {
      AllowanceExactly(subs, |subs|, limits);
    }
  }

  /** Where a member of such a folder lies. */
  lemma MemberLies(subs: seq<Substream>, root: Option<u64>, size: nat, limits: Limits, j: nat)
    requires Cuts(subs, root, size, limits) && j < |subs|
    ensures SizeSum(subs, j) <= EndOf(subs, j, size) <= size
    ensures Bounds(subs, j, size) == Ok((SizeSum(subs, j), EndOf(subs, j, size)))
    ensures Locate(subs, j, limits, size) == Bounds(subs, j, size)
  {
    PrefixIsSum(subs, j);
    SumGrowsWith(subs, j, |subs| - 1);
    SumGrowsWith(subs, |subs| - 1, |subs|);
    if j + 1 < |subs| {
      SumGrowsWith(subs, j + 1, |subs| - 1);
    }
  }

  lemma IntactIsGood(a: Archive, d: FolderDecoder, total: nat, f: nat, dec: Decoded)
    requires f < |a.folders| == |a.roots| && Precise(d) && Sized(a, d)
    requires Intact(a, d, f, dec) && SumFits(a.folders[f], a.limits) && total + |dec.bytes| <= a.limits.total
    ensures FolderGood(a, d, total, f, dec)
  {
    hide FolderMaximum, Matches, SizeSum, Bounds, Locate, SumFits;
    var subs, size := a.folders[f], |dec.bytes|;
    var cap: nat :| d(f, cap) == Ok(dec);
    CapSuffices(subs, a.roots[f], size, a.limits, a.limits.total - total);
    forall j | 0 <= j < |subs| ensures MemberOk(subs, j, dec.bytes) {
      MemberLies(subs, a.roots[f], size, a.limits, j);
    }
  }

  lemma GoodIsIntact(a: Archive, d: FolderDecoder, total: nat, f: nat, dec: Decoded)
    requires f < |a.folders| == |a.roots| && Precise(d) && Sized(a, d) && FolderGood(a, d, total, f, dec)
    ensures Intact(a, d, f, dec) && SumFits(a.folders[f], a.limits) && total + |dec.bytes| <= a.limits.total
  {
    hide Matches, MemberOk, Allowance;
    var subs, size := a.folders[f], |dec.bytes|;
    AllowanceExactly(subs, |subs|, a.limits);
    if subs != [] {
      LastMember(subs, dec.bytes);
      forall j | 0 <= j < |subs| ensures MemberOk(subs, j, dec.bytes) {}
      GoodDigests(subs, a.roots[f], dec.bytes, a.limits);
    }
  }

  lemma LastMember(subs: seq<Substream>, bytes: seq<byte>)
    requires subs != [] && MemberOk(subs, |subs| - 1, bytes)
    ensures SizeSum(subs, |subs| - 1) <= |bytes|
    ensures subs[|subs| - 1].size.Some? ==> SizeSum(subs, |subs|) <= |bytes|
  {
    hide Matches;
    PrefixIsSum(subs, |subs| - 1);
  }

  lemma GoodDigests(subs: seq<Substream>, root: Option<u64>, bytes: seq<byte>, limits: Limits)
    requires Cuts(subs, root, |bytes|, limits) && forall j | 0 <= j < |subs| :: MemberOk(subs, j, bytes)
    ensures DigestsMatch(subs, bytes)
  {
    hide Matches, SizeSum, Cuts, Bounds, Locate;
    forall j | 0 <= j < |subs|
      ensures SizeSum(subs, j) <= EndOf(subs, j, |bytes|) <= |bytes|
      ensures Matches(subs[j].crc, bytes[SizeSum(subs, j)..EndOf(subs, j, |bytes|)])
    {
      MemberLies(subs, root, |bytes|, limits, j);
      assert MemberOk(subs, j, bytes);
    }
  }

  // ---- archives ----

  /** All folders are intact and their outputs together stay within the total limit. */
  ghost predicate AllIntact(a: Archive, d: FolderDecoder, decs: seq<Decoded>, before: nat)
    requires |a.folders| == |a.roots|
  {
    && |decs| == |a.folders| && before + OutputSum(decs, |decs|) <= a.limits.total
    && forall f | 0 <= f < |decs| :: Intact(a, d, f, decs[f])
  }

  predicate SumsFit(a: Archive) {
    forall f | 0 <= f < |a.folders| :: SumFits(a.folders[f], a.limits)
  }

  /** Verification asks for exactly this, and for sums that fit 64 bits. */
  lemma VerifiedExactly(a: Archive, d: FolderDecoder, decs: seq<Decoded>, before: nat)
    requires |a.folders| == |a.roots| && Precise(d) && Sized(a, d) && before <= a.limits.total
    ensures AllVerified(a, d, decs, before) <==> AllIntact(a, d, decs, before) && SumsFit(a)
  {
    hide FolderGood, Intact, SumFits, Precise, Sized, OutputSum;
    NoOutput(decs);
    if |decs| == |a.folders| {
      forall f | 0 <= f < |decs|
        ensures FolderVerified(a, d, decs, before, f) <==>
                && Intact(a, d, f, decs[f]) && SumFits(a.folders[f], a.limits)
                && before + OutputSum(decs, f) + |decs[f].bytes| <= a.limits.total
      {
        FolderExactly(a, d, before + OutputSum(decs, f), f, decs[f]);
      }
      forall f | 0 <= f < |decs| ensures OutputSum(decs, f) + |decs[f].bytes| <= OutputSum(decs, |decs|) {
        SumNext(decs, f);
        NaturalExtraction.SumGrows(decs, f + 1, |decs|);
      }
      if AllVerified(a, d, decs, before) {
        if |decs| > 0 {
          SumNext(decs, |decs| - 1);
          assert FolderVerified(a, d, decs, before, |decs| - 1);
        }
      }
    }
  }

  /** And extraction asks for the same of the folders that have members. */
  lemma NeededExactly(a: Archive, d: FolderDecoder, decs: seq<Decoded>)
    requires |decs| == |a.folders| == |a.roots| && Precise(d) && Sized(a, d)
    ensures AllNeeded(a, d, decs, 0) <==>
            forall f | 0 <= f < |decs| && a.folders[f] != [] ::
              && Intact(a, d, f, decs[f]) && SumFits(a.folders[f], a.limits)
              && OutputSum(decs, f) + |decs[f].bytes| <= a.limits.total
  {
    hide FolderGood, Intact, SumFits, Precise, Sized, OutputSum;
    forall f | 0 <= f < |decs|
      ensures FolderVerified(a, d, decs, 0, f) <==>
              && Intact(a, d, f, decs[f]) && SumFits(a.folders[f], a.limits)
              && OutputSum(decs, f) + |decs[f].bytes| <= a.limits.total
    {
      FolderExactly(a, d, OutputSum(decs, f), f, decs[f]);
    }
  }

  lemma NoOutput(decs: seq<Decoded>)
    ensures decs == [] ==> OutputSum(decs, |decs|) == 0
  {
  }

  lemma FolderExactly(a: Archive, d: FolderDecoder, total: nat, f: nat, dec: Decoded)
    requires f < |a.folders| == |a.roots| && Precise(d) && Sized(a, d)
    ensures FolderGood(a, d, total, f, dec) <==>
            Intact(a, d, f, dec) && SumFits(a.folders[f], a.limits) && total + |dec.bytes| <= a.limits.total
  {
    hide FolderGood, Intact, SumFits, Precise, Sized;
    if FolderGood(a, d, total, f, dec) {
      GoodIsIntact(a, d, total, f, dec);
    }
    if Intact(a, d, f, dec) && SumFits(a.folders[f], a.limits) && total + |dec.bytes| <= a.limits.total {
      IntactIsGood(a, d, total, f, dec);
    }
  }

  /** The bytes of a streamed member: its own piece of its folder's output. */
  function Piece(m: Mapping, folders: Folders, decs: seq<Decoded>): (x: seq<byte>)
    requires m.folder < |folders| == |decs| && m.substream < |folders[m.folder]|
  {
    var subs, bytes := folders[m.folder], decs[m.folder].bytes;
    var start, end := SizeSum(subs, m.substream), EndOf(subs, m.substream, |bytes|);
    if start <= end <= |bytes| then bytes[start..end] else []
  }

  lemma {:induction false} FromValid(folders: Folders, f: nat, j: nat)
    requires At(folders, f, j)
    ensures forall m | m in StreamsFrom(folders, f, j) ::
              && m.folder < |folders| && m.substream < |folders[m.folder]|
              && m.size == folders[m.folder][m.substream].size && m.crc == folders[m.folder][m.substream].crc
    decreases |folders| - f, if f < |folders| then |folders[f]| - j else 0
  {
    if f == |folders| {
    } else if j == |folders[f]| {
      FromValid(folders, f + 1, 0);
    } else {
      FromValid(folders, f, j + 1);
    }
  }

  lemma {:induction false} MemberListed(members: seq<Member>, i: nat)
    requires i < |members| && members[i].stream.Some?
    ensures members[i].stream.value in StreamsOf(members)
    decreases |members|
  {
    var init := members[..|members| - 1];
    if i < |init| {
      assert init[i] == members[i];
      MemberListed(init, i);
    }
  }

  lemma MappingValid(a: Archive, i: nat)
    requires Extraction.Validated(a) && i < |a.members| && a.members[i].stream.Some?
    ensures var m := a.members[i].stream.value;
            && m.folder < |a.folders| && m.substream < |a.folders[m.folder]|
            && m.size == a.folders[m.folder][m.substream].size && m.crc == a.folders[m.folder][m.substream].crc
  {
    hide StreamsOf, StreamsFrom;
    MemberListed(a.members, i);
    FromValid(a.folders, 0, 0);
  }

  /** A member of an intact archive reads, on its own, as its piece of the folder's output. */
  lemma MemberReads(a: Archive, d: FolderDecoder, decs: seq<Decoded>, i: nat)
    requires Extraction.Validated(a) && Precise(d) && Sized(a, d) && AllIntact(a, d, decs, 0) && SumsFit(a)
    requires i < |a.members| && a.members[i].stream.Some?
    ensures var m := a.members[i].stream.value;
            && m.folder < |a.folders| && m.substream < |a.folders[m.folder]|
            && MemberBytes(a, d, i) == Ok(Piece(m, a.folders, decs))
  {
    MappingValid(a, i);
    var m := a.members[i].stream.value;
    hide Natural, Matches, SizeSum, Bounds, SumFits, Locate, OutputSum, DecodeFull;
    IntactDecodes(a, d, decs, m.folder);
    MemberLies(a.folders[m.folder], a.roots[m.folder], |decs[m.folder].bytes|, a.limits, m.substream);
  }

  /** An intact folder decodes on its own. */
  lemma IntactDecodes(a: Archive, d: FolderDecoder, decs: seq<Decoded>, f: nat)
    requires |a.folders| == |a.roots| && Precise(d) && Sized(a, d) && AllIntact(a, d, decs, 0) && SumsFit(a)
    requires f < |a.folders|
    ensures DecodeFull(a, d, f) == Ok(decs[f]) && Intact(a, d, f, decs[f])
  {
    hide Matches, SizeSum, FolderMaximum, SumFits, OutputSum, Cuts, DigestsMatch;
    assert Intact(a, d, f, decs[f]);
    var cap: nat :| d(f, cap) == Ok(decs[f]);
    SumNext(decs, f);
    NaturalExtraction.SumGrows(decs, f + 1, |decs|);
    CapSuffices(a.folders[f], a.roots[f], |decs[f].bytes|, a.limits, a.limits.total);
  }

  /** Without a stream only an empty file reads, and as nothing; directories and anti-items do not. */
  lemma Unstreamed(a: Archive, d: FolderDecoder, i: nat)
    requires |a.folders| == |a.roots| && i < |a.members| && a.members[i].stream.None?
    ensures MemberBytes(a, d, i).Ok? <==> a.members[i].isEmptyFile && !a.members[i].isAnti
    ensures MemberBytes(a, d, i).Ok? ==> MemberBytes(a, d, i).value == []
  {
  }

  /** No member reads unless its bytes have its digest and its folder, decoded under some cap, has its own. */
  lemma OnlyMatching(a: Archive, d: FolderDecoder, i: nat) returns (cap: nat, dec: Decoded, start: nat)
    requires |a.folders| == |a.roots| && i < |a.members| && a.members[i].stream.Some? && MemberBytes(a, d, i).Ok?
    ensures var m, x := a.members[i].stream.value, MemberBytes(a, d, i).value;
            && Matches(m.crc, x) && d(m.folder, cap) == Ok(dec) && !dec.crcMismatch
            && start + |x| <= |dec.bytes| && x == dec.bytes[start..start + |x|]
  {
    hide Matches, FolderMaximum, Locate;
    var m, o := a.members[i].stream.value, MemberOpened(a, d, i).value;
    cap := FolderMaximum(a.folders[m.folder], a.roots[m.folder], a.limits, a.limits.total).value;
    dec, start := Decoded(o.data, false), o.start;
  }

  // ---- what a sink receives ----

  /** The events of one member: none for a directory or an anti-item. */
  function Delivered(a: Archive, decs: seq<Decoded>, i: nat): seq<Event>
    requires i < |a.members|
  {
    var m := a.members[i];
    if m.stream.None? then if m.isEmptyFile && !m.isAnti then Group(i, []) else []
    else
      var s := m.stream.value;
      if s.folder < |a.folders| == |decs| && s.substream < |a.folders[s.folder]|
      then Group(i, Piece(s, a.folders, decs)) else []
  }

  function Delivery(a: Archive, decs: seq<Decoded>, k: nat): seq<Event>
    requires k <= |a.members|
  {
    if k == 0 then [] else Delivery(a, decs, k - 1) + Delivered(a, decs, k - 1)
  }

  lemma {:induction false} GroupsAre(a: Archive, d: FolderDecoder, decs: seq<Decoded>, k: nat)
    requires Extraction.Validated(a) && Precise(d) && Sized(a, d) && AllIntact(a, d, decs, 0) && SumsFit(a)
    requires k <= |a.members|
    ensures GroupsOf(a, d, k) == Delivery(a, decs, k)
  {
    hide Natural, AllIntact, Precise, Sized, MemberBytes, Piece, Group;
    if k > 0 {
      GroupsAre(a, d, decs, k - 1);
      GroupIs(a, d, decs, k - 1);
    }
  }

  lemma GroupIs(a: Archive, d: FolderDecoder, decs: seq<Decoded>, i: nat)
    requires Extraction.Validated(a) && Precise(d) && Sized(a, d) && AllIntact(a, d, decs, 0) && SumsFit(a)
    requires i < |a.members|
    ensures GroupOf(a, d, i) == Delivered(a, decs, i)
  {
    hide Natural, Intact, Precise, Sized, Piece, Group, FolderMaximum, OutputSum;
    if a.members[i].stream.Some? {
      MemberReads(a, d, decs, i);
    }
  }

  /** An intact archive verifies, and any willing sink then receives every member with its own bytes. */
  method VerifyAndExtract(a: Archive, d: FolderDecoder, ghost decs: seq<Decoded>, sink: EntrySink, before: nat)
    returns (verified: Result<()>, extracted: Result<nat>)
    requires Extraction.Validated(a) && Precise(d) && Sized(a, d) && AllIntact(a, d, decs, before) && SumsFit(a)
    requires sink.log == [] && sink.Willing()
    modifies sink
    ensures verified.Ok? && extracted.Ok? && sink.log == Delivery(a, decs, |a.members|)
  {
    hide Natural, FolderGood, Intact, SumsFit, OutputSum, GroupsOf, Delivery, AllVerified, Precise, Monotone, Sized;
    PreciseIsMonotone(d);
    VerifiedExactly(a, d, decs, before);
    GroupsAre(a, d, decs, |a.members|);
    verified, extracted := NaturalExtraction.VerifyThenExtract(a, d, sink, before);
  }

  /** The sum in 64 bits refuses intact archives: two members, the second of unknown size, and no entry limit. */
  lemma SumOverflows()
    ensures exists a: Archive, d: FolderDecoder, decs: seq<Decoded> ::
              && |a.folders| == |a.roots| && Precise(d) && Sized(a, d) && AllIntact(a, d, decs, 0)
              && !AllVerified(a, d, decs, 0)
  {
    var subs := [Substream(Some(1), None), Substream(None, None)];
    var a := Archive([subs], [None], [], Limits(2, UNKNOWN_SIZE));
    var dec := Decoded([7, 8], false);
    var d: FolderDecoder := (f: nat, cap: nat) => if f == 0 && cap >= 2 then Ok(dec) else Err(LimitExceeded);
    assert SizeSum(subs, 0) == 0 && SizeSum(subs, 1) == 1;
    assert d(0, 2) == Ok(dec);
    assert Intact(a, d, 0, dec) by {
      hide Digest;
    }
    assert OutputSum([dec], 0) == 0 && OutputSum([dec], 1) == 2;
    assert !SumFits(a.folders[0], a.limits);
    VerifiedExactly(a, d, [dec], 0);
  }
}
