/** Files and substreams: the k-th file with a stream is the k-th substream of the archive. */
module MemberMapping {
  import opened Prelude
  import opened Substreams

  datatype Mapping = Mapping(folder: nat, substream: nat, size: Option<u64>, crc: Option<u32>)

  datatype Member = Member(stream: Option<Mapping>, isEmptyFile: bool, isAnti: bool)

  type Folders = seq<seq<Substream>>

  predicate At(folders: Folders, f: nat, j: nat) {
    f <= |folders| && if f < |folders| then j <= |folders[f]| else j == 0
  }

  /** All substreams from one on, folder by folder. */
  function StreamsFrom(folders: Folders, f: nat, j: nat): (ms: seq<Mapping>)
    requires At(folders, f, j)
    decreases |folders| - f, if f < |folders| then |folders[f]| - j else 0
  {
    if f == |folders| then []
    else if j == |folders[f]| then StreamsFrom(folders, f + 1, 0)
    else [Mapping(f, j, folders[f][j].size, folders[f][j].crc)] + StreamsFrom(folders, f, j + 1)
  }

  /** The mappings of the members that have one. */
  function StreamsOf(members: seq<Member>): seq<Mapping> {
    if members == [] then []
    else
      var last := members[|members| - 1];
      StreamsOf(members[..|members| - 1]) + if last.stream.Some? then [last.stream.value] else []
  }

  /** Members in natural order: their streams are all the substreams, in order. */
  ghost predicate Natural(folders: Folders, members: seq<Member>) {
    StreamsOf(members) == StreamsFrom(folders, 0, 0)
  }

  function StreamCount(folders: Folders): nat {
    if folders == [] then 0 else StreamCount(folders[..|folders| - 1]) + |folders[|folders| - 1]|
  }

  /** `collect_stream_mappings`: as many mappings as substreams, so its count check cannot fail. */
  method CollectMappings(folders: Folders) returns (r: Result<seq<Mapping>>)
    ensures r == Ok(StreamsFrom(folders, 0, 0)) && |r.value| == StreamCount(folders)
  {
    var mappings: seq<Mapping> := [];
    for f := 0 to |folders|
      invariant StreamsFrom(folders, 0, 0) == mappings + StreamsFrom(folders, f, 0)
      invariant |mappings| == StreamCount(folders[..f])
    {
      assert folders[..f + 1][..f] == folders[..f];
      for j := 0 to |folders[f]|
        invariant StreamsFrom(folders, 0, 0) == mappings + StreamsFrom(folders, f, j)
        invariant |mappings| == StreamCount(folders[..f]) + j
      {
        mappings := mappings + [Mapping(f, j, folders[f][j].size, folders[f][j].crc)];
      }
    }
    assert folders[..|folders|] == folders;
    assert mappings + [] == mappings;
    if |mappings| != StreamCount(folders) {
      return Err(Format);
    }
    r := Ok(mappings);
  }

  function CountOf(flags: seq<bool>, value: bool): nat {
    if flags == [] then 0 else CountOf(flags[..|flags| - 1], value) + if flags[|flags| - 1] == value then 1 else 0
  }

  lemma {:induction false} CountGrows(flags: seq<bool>, k: nat, value: bool)
    requires k < |flags|
    ensures CountOf(flags[..k], value) + (if flags[k] == value then 1 else 0) <= CountOf(flags, value)
    decreases |flags|
  {
    var init := flags[..|flags| - 1];
    if k < |init| {
      assert init[..k] == flags[..k];
      CountGrows(init, k, value);
    }
  }

  /** What file `i` becomes: the next substream, or the next pair of empty-file bits. */
  ghost predicate MappedAt(empty: seq<bool>, emptyFile: seq<bool>, anti: seq<bool>, mappings: seq<Mapping>,
                           members: seq<Member>, i: nat)
    requires i < |members| && i < |empty|
  {
    var e, s := CountOf(empty[..i], true), CountOf(empty[..i], false);
    if empty[i] then e < |emptyFile| && e < |anti| && members[i] == Member(None, emptyFile[e], anti[e])
    else s < |mappings| && members[i] == Member(Some(mappings[s]), false, false)
  }

  /** The file loop of `validate_files`, whose bit vectors have one entry per empty stream. The only error is
      a number of streamed files other than the number of substreams. */
  method MapFiles(empty: seq<bool>, emptyFile: seq<bool>, anti: seq<bool>, mappings: seq<Mapping>)
    returns (r: Result<seq<Member>>)
    requires |emptyFile| == |anti| == CountOf(empty, true)
    ensures r.Ok? <==> |mappings| == CountOf(empty, false)
    ensures r.Ok? ==> |r.value| == |empty| && StreamsOf(r.value) == mappings
    ensures r.Ok? ==> forall i | 0 <= i < |empty| :: MappedAt(empty, emptyFile, anti, mappings, r.value, i)
  {
    var expected: nat := 0;
    for k := 0 to |empty|
      invariant expected == CountOf(empty[..k], false)
    {
      assert empty[..k + 1][..k] == empty[..k];
      expected := expected + if empty[k] then 0 else 1;
    }
    assert empty[..|empty|] == empty;
    if |mappings| != expected {
      return Err(Format);
    }
    var files: seq<Member> := [];
    var emptyCursor: nat, streamCursor: nat := 0, 0;
    for i := 0 to |empty|
      invariant |files| == i && emptyCursor == CountOf(empty[..i], true) && streamCursor == CountOf(empty[..i], false)
      invariant streamCursor <= |mappings| && StreamsOf(files) == mappings[..streamCursor]
      invariant forall k | 0 <= k < i :: MappedAt(empty, emptyFile, anti, mappings, files, k)
    {
      assert empty[..i + 1][..i] == empty[..i];
      CountGrows(empty, i, true);
      CountGrows(empty, i, false);
      ghost var before := files;
      if empty[i] {
        if emptyCursor >= |emptyFile| || emptyCursor >= |anti| {
          return Err(Format);
        }
        files := files + [Member(None, emptyFile[emptyCursor], anti[emptyCursor])];
        emptyCursor := emptyCursor + 1;
      } else {
        if streamCursor >= |mappings| {
          return Err(Format);
        }
        files := files + [Member(Some(mappings[streamCursor]), false, false)];
        streamCursor := streamCursor + 1;
      }
      assert files[..i] == before;
      forall k | 0 <= k < i
        ensures MappedAt(empty, emptyFile, anti, mappings, files, k)
      {
        assert MappedAt(empty, emptyFile, anti, mappings, before, k);
      }
    }
    if emptyCursor != |emptyFile| || emptyCursor != |anti| || streamCursor != |mappings| {
      return Err(Format);
    }
    r := Ok(files);
  }

  /** Mapping the files of a header puts its members in natural order. */
  method MapMembers(folders: Folders, empty: seq<bool>, emptyFile: seq<bool>, anti: seq<bool>)
    returns (r: Result<seq<Member>>)
    requires |emptyFile| == |anti| == CountOf(empty, true)
    ensures r.Ok? <==> StreamCount(folders) == CountOf(empty, false)
    ensures r.Ok? ==> Natural(folders, r.value)
  {
    var mappings := CollectMappings(folders);
    r := MapFiles(empty, emptyFile, anti, mappings.value);
  }
}
