/** The substream section of a header: its bytes, its parser, and what the validator makes of them. */
module SubstreamsInfo {
  import opened Prelude
  import opened HeaderNumbers
  import opened Substreams

  // ---- lists of numbers ----

  /** `parse_sizes`: as many numbers as asked for. */
  function ReadUints(s: seq<byte>, n: nat): (x: Result<(seq<u64>, seq<byte>)>)
    ensures x.Ok? ==> |x.value.0| == n && |x.value.1| + n <= |s|
    decreases n
  {
    if n == 0 then Ok(([], s))
    else
      var (v, rest) :- DecodeUint(s);
      UintFits(s);
      var (values, end) :- ReadUints(rest, n - 1);
      Ok(([v] + values, end))
  }

  function PrintUints(values: seq<u64>): seq<byte> {
    if values == [] then [] else EncodeUint(values[0]) + PrintUints(values[1..])
  }

  lemma {:induction false} UintsInverse(values: seq<u64>, more: seq<byte>)
    ensures ReadUints(PrintUints(values) + more, |values|) == Ok((values, more))
    decreases |values|
  {
    hide DecodeUint, EncodeUint;
    if values == [] {
      assert PrintUints(values) + more == more;
    } else {
      var tail := PrintUints(values[1..]) + more;
      assert PrintUints(values) + more == EncodeUint(values[0]) + tail;
      UintInverse(values[0], tail);
      UintsInverse(values[1..], more);
      assert [values[0]] + values[1..] == values;
    }
  }

  // ---- bit vectors ----

  /** Bit `i` of a byte, the most significant first. */
  function BitOf(b: byte, i: nat): bool
    requires i < 8
  {
    b / Pow2(7 - i) % 2 == 1
  }

  function FlagAt(s: seq<byte>, k: nat): bool
    requires k / 8 < |s|
  {
    BitOf(s[k / 8], k % 8)
  }

  /** `parse_bits`: eight flags to a byte, the last byte filled up with anything. */
  function ReadBits(s: seq<byte>, n: nat): (x: Result<(seq<bool>, seq<byte>)>)
    ensures x.Ok? ==> |x.value.0| == n
  {
    if |s| < (n + 7) / 8 then Err(Format)
    else Ok((seq(n, k requires 0 <= k < n => FlagAt(s, k)), s[(n + 7) / 8..]))
  }

  /** The number of the first `n` flags from `at` on, absent ones counting as clear. */
  function Packed(flags: seq<bool>, at: nat, n: nat): (v: nat)
    ensures v < Pow2(n)
  {
    if n == 0 then 0
    else 2 * Packed(flags, at, n - 1) + if at + n - 1 < |flags| && flags[at + n - 1] then 1 else 0
  }

  function PrintBits(flags: seq<bool>): (s: seq<byte>)
    ensures |s| == (|flags| + 7) / 8
  {
    seq((|flags| + 7) / 8, j requires 0 <= j => PackedByte(flags, 8 * j))
  }

  function PackedByte(flags: seq<bool>, at: nat): byte {
    EightBits();
    Packed(flags, at, 8)
  }

  lemma EightBits()
    ensures Pow2(8) == 0x100
  {
  }

  /** The leading flags of a packed number. */
  lemma {:induction false} PackedLead(flags: seq<bool>, at: nat, n: nat, i: nat)
    requires i <= n
    ensures Packed(flags, at, n) / Pow2(n - i) == Packed(flags, at, i)
    decreases n
  {
    if i < n {
      PackedLead(flags, at, n - 1, i);
      var v := Packed(flags, at, n - 1);
      HalfDiv(v, if at + n - 1 < |flags| && flags[at + n - 1] then 1 else 0, Pow2(n - 1 - i));
    }
  }

  lemma HalfDiv(v: nat, b: bit, p: nat)
    requires p >= 1
    ensures (2 * v + b) / (2 * p) == v / p
  {
    var q, r := v / p, v % p;
    assert 2 * v + b == q * (2 * p) + (2 * r + b) by {
      assert v == q * p + r;
      assert q * (2 * p) == 2 * (q * p);
    }
    QuotientIs(2 * v + b, 2 * p, q, 2 * r + b);
  }

  lemma PackedBit(flags: seq<bool>, k: nat)
    requires k < |flags|
    ensures BitOf(PackedByte(flags, k / 8 * 8), k % 8) == flags[k]
  {
    var at, i := k / 8 * 8, k % 8;
    PackedLead(flags, at, 8, i + 1);
    assert at + i == k;
  }

  lemma BitsInverse(flags: seq<bool>, more: seq<byte>)
    ensures ReadBits(PrintBits(flags) + more, |flags|) == Ok((flags, more))
  {
    hide BitOf, PackedByte;
    var s, n := PrintBits(flags) + more, |flags|;
    var x := ReadBits(s, n).value.0;
    forall k | 0 <= k < n ensures x[k] == flags[k] {
      PackedBit(flags, k);
      assert s[k / 8] == PackedByte(flags, 8 * (k / 8));
    }
    assert x == flags;
    assert s[(n + 7) / 8..] == more;
  }

  // ---- digests ----

  function ReadU32(s: seq<byte>): (x: Result<(u32, seq<byte>)>)
    ensures x.Ok? ==> |x.value.1| + 4 == |s|
  {
    if |s| < 4 then Err(Format)
    else
      LittleBound(s[..4]);
      FourBytes();
      Ok((LittleEndian(s[..4]), s[4..]))
  }

  lemma FourBytes()
    ensures Pow256(4) == 0x1_0000_0000
  {
  }

  /** A digest where one is defined. */
  function ReadDefined(s: seq<byte>, defined: seq<bool>): (x: Result<(seq<Option<u32>>, seq<byte>)>)
    ensures x.Ok? ==> |x.value.0| == |defined|
    decreases |defined|
  {
    if defined == [] then Ok(([], s))
    else if !defined[0] then
      var (crcs, end) :- ReadDefined(s, defined[1..]);
      Ok(([None] + crcs, end))
    else
      var (v, rest) :- ReadU32(s);
      var (crcs, end) :- ReadDefined(rest, defined[1..]);
      Ok(([Some(v)] + crcs, end))
  }

  function PrintDigest(crc: Option<u32>): seq<byte> {
    if crc.Some? then LittleBytes(crc.value, 4) else []
  }

  function PrintDefined(crcs: seq<Option<u32>>): seq<byte> {
    if crcs == [] then [] else PrintDigest(crcs[0]) + PrintDefined(crcs[1..])
  }

  function Defined(crcs: seq<Option<u32>>): (d: seq<bool>)
    ensures |d| == |crcs|
  {
    seq(|crcs|, k requires 0 <= k < |crcs| => crcs[k].Some?)
  }

  lemma U32Inverse(v: u32, more: seq<byte>)
    ensures ReadU32(LittleBytes(v, 4) + more) == Ok((v, more))
  {
    hide LittleBytes, LittleEndian;
    FourBytes();
    LittleOfBytes(v, 4);
    assert (LittleBytes(v, 4) + more)[..4] == LittleBytes(v, 4);
    assert (LittleBytes(v, 4) + more)[4..] == more;
  }

  lemma {:induction false} DefinedInverse(crcs: seq<Option<u32>>, more: seq<byte>)
    ensures ReadDefined(PrintDefined(crcs) + more, Defined(crcs)) == Ok((crcs, more))
    decreases |crcs|
  {
    hide ReadU32, PrintDefined, Defined;
    if crcs == [] {
      NoDigests(more);
    } else {
      DefinedInverse(crcs[1..], more);
      DefinedFirst(crcs);
      PrintedFirst(crcs, more);
      assert [crcs[0]] + crcs[1..] == crcs;
    }
  }

  lemma NoDigests(more: seq<byte>)
    ensures PrintDefined([]) + more == more && Defined([]) == []
  {
  }

  lemma DefinedFirst(crcs: seq<Option<u32>>)
    requires crcs != []
    ensures Defined(crcs) == [crcs[0].Some?] + Defined(crcs[1..])
  {
  }

  /** One digest in front of the others. */
  lemma PrintedFirst(crcs: seq<Option<u32>>, more: seq<byte>)
    requires crcs != []
    ensures var s, tail := PrintDefined(crcs) + more, PrintDefined(crcs[1..]) + more;
            if crcs[0].Some? then ReadU32(s) == Ok((crcs[0].value, tail)) else s == tail
  {
    var rest := PrintDefined(crcs[1..]);
    assert PrintDefined(crcs) + more == PrintDigest(crcs[0]) + (rest + more);
    hide ReadU32, LittleBytes, PrintDefined;
    if crcs[0].Some? {
      U32Inverse(crcs[0].value, rest + more);
    }
  }

  /** `parse_digests`: nothing for no digests; else a mark, perhaps a bit vector, and the defined ones. */
  function ReadDigests(s: seq<byte>, n: nat): (x: Result<(seq<Option<u32>>, seq<byte>)>)
    ensures x.Ok? ==> |x.value.0| == n
  {
    if n == 0 then Ok(([], s))
    else if s == [] then Err(Format)
    else if s[0] != 0 then ReadDefined(s[1..], seq(n, _ => true))
    else
      var (defined, rest) :- ReadBits(s[1..], n);
      ReadDefined(rest, defined)
  }

  /** With a mark other than zero, all digests are defined and no vector follows. */
  function PrintDigests(crcs: seq<Option<u32>>, mark: byte): seq<byte> {
    if crcs == [] then []
    else [mark] + (if mark == 0 then PrintBits(Defined(crcs)) else []) + PrintDefined(crcs)
  }

  lemma DigestsInverse(crcs: seq<Option<u32>>, mark: byte, more: seq<byte>)
    requires mark != 0 ==> forall k | 0 <= k < |crcs| :: crcs[k].Some?
    ensures ReadDigests(PrintDigests(crcs, mark) + more, |crcs|) == Ok((crcs, more))
  {
    hide ReadBits, PrintBits, ReadDefined, PrintDefined;
    if crcs == [] {
      assert PrintDigests(crcs, mark) + more == more;
    } else {
      var tail := PrintDefined(crcs) + more;
      DefinedInverse(crcs, more);
      if mark == 0 {
        BitsInverse(Defined(crcs), tail);
        assert (PrintDigests(crcs, mark) + more)[1..] == PrintBits(Defined(crcs)) + tail;
      } else {
        assert (PrintDigests(crcs, mark) + more)[1..] == tail;
        assert Defined(crcs) == seq(|crcs|, _ => true);
      }
    }
  }

  // ---- the section ----

  const ID_END: byte := 0x00
  const ID_SIZE: byte := 0x09
  const ID_CRC: byte := 0x0a
  const ID_NUM_UNPACK_STREAM: byte := 0x0d

  /** The raw section: a count for every folder, and the two optional lists. */
  datatype Info = Info(counts: seq<u64>, values: Option<seq<u64>>, listed: Option<seq<Option<u32>>>)

  /** As long as the counts say. */
  predicate Sized(info: Info, crcs: seq<Option<u32>>) {
    && |info.counts| == |crcs|
    && (info.values.Some? ==> |info.values.value| == SizeTotal(info.counts))
    && (info.listed.Some? ==> |info.listed.value| == DigestTotal(info.counts, crcs))
  }

  function Ones(n: nat): (s: seq<u64>)
    ensures |s| == n
  {
    seq(n, _ => 1)
  }

  /** The counts of all folders: listed, or one each. What comes back starts at the next identifier. */
  function ReadCounts(s: seq<byte>, n: nat): (x: Result<(seq<u64>, seq<byte>)>)
    ensures x.Ok? ==> |x.value.0| == n
  {
    if s == [] then Err(Format)
    else if s[0] == ID_NUM_UNPACK_STREAM then ReadUints(s[1..], n)
    else Ok((Ones(n), s))
  }

  function ReadSizes(s: seq<byte>, n: nat): (x: Result<(Option<seq<u64>>, seq<byte>)>)
    ensures x.Ok? && x.value.0.Some? ==> |x.value.0.value| == n
  {
    if s == [] then Err(Format)
    else if s[0] == ID_SIZE then
      var (values, rest) :- ReadUints(s[1..], n);
      Ok((Some(values), rest))
    else Ok((None, s))
  }

  function ReadCrcs(s: seq<byte>, n: nat): (x: Result<(Option<seq<Option<u32>>>, seq<byte>)>)
    ensures x.Ok? && x.value.0.Some? ==> |x.value.0.value| == n
  {
    if s == [] then Err(Format)
    else if s[0] == ID_CRC then
      var (crcs, rest) :- ReadDigests(s[1..], n);
      Ok((Some(crcs), rest))
    else Ok((None, s))
  }

  /** `parse_substreams_info`, for folders with the digests `crcs` and a limit on the substreams. */
  function ReadInfo(s: seq<byte>, crcs: seq<Option<u32>>, maximum: nat): (x: Result<(Info, seq<byte>)>)
    ensures x.Ok? ==> Sized(x.value.0, crcs) && Total(x.value.0.counts) <= maximum
  {
    var (counts, s1) :- ReadCounts(s, |crcs|);
    if Total(counts) > maximum then Err(LimitExceeded)
    else
      var (values, s2) :- ReadSizes(s1, SizeTotal(counts));
      var (listed, s3) :- ReadCrcs(s2, DigestTotal(counts, crcs));
      if s3 == [] || s3[0] != ID_END then Err(Format) else Ok((Info(counts, values, listed), s3[1..]))
  }

  /** How a writer may put it: counts of one may stay unwritten, and a mark may stand for the bit vector. */
  datatype Style = Style(writeCounts: bool, mark: byte)

  predicate StyleOk(info: Info, style: Style) {
    && (style.writeCounts || info.counts == Ones(|info.counts|))
    && (style.mark != 0 && info.listed.Some? ==>
          forall k | 0 <= k < |info.listed.value| :: info.listed.value[k].Some?)
  }

  function PrintCounts(info: Info, style: Style): seq<byte> {
    if style.writeCounts then [ID_NUM_UNPACK_STREAM] + PrintUints(info.counts) else []
  }

  function PrintSizes(info: Info): seq<byte> {
    if info.values.Some? then [ID_SIZE] + PrintUints(info.values.value) else []
  }

  function PrintCrcs(info: Info, style: Style): seq<byte> {
    if info.listed.Some? then [ID_CRC] + PrintDigests(info.listed.value, style.mark) else []
  }

  function PrintInfo(info: Info, style: Style): seq<byte> {
    PrintCounts(info, style) + (PrintSizes(info) + (PrintCrcs(info, style) + [ID_END]))
  }

  lemma CountsInverse(info: Info, style: Style, more: seq<byte>)
    requires StyleOk(info, style) && more != [] && more[0] != ID_NUM_UNPACK_STREAM
    ensures ReadCounts(PrintCounts(info, style) + more, |info.counts|) == Ok((info.counts, more))
  {
    hide ReadUints, PrintUints;
    if style.writeCounts {
      UintsInverse(info.counts, more);
      assert (PrintCounts(info, style) + more)[1..] == PrintUints(info.counts) + more;
    } else {
      assert PrintCounts(info, style) + more == more;
    }
  }

  lemma SizesInverse(info: Info, more: seq<byte>)
    requires more != [] && more[0] != ID_SIZE
    ensures var n := if info.values.Some? then |info.values.value| else SizeTotal(info.counts);
            ReadSizes(PrintSizes(info) + more, n) == Ok((info.values, more))
  {
    hide ReadUints, PrintUints;
    if info.values.Some? {
      UintsInverse(info.values.value, more);
      assert (PrintSizes(info) + more)[1..] == PrintUints(info.values.value) + more;
    } else {
      assert PrintSizes(info) + more == more;
    }
  }

  lemma CrcsInverse(info: Info, style: Style, n: nat, more: seq<byte>)
    requires StyleOk(info, style) && more != [] && more[0] != ID_CRC
    requires info.listed.Some? ==> |info.listed.value| == n
    ensures ReadCrcs(PrintCrcs(info, style) + more, n) == Ok((info.listed, more))
  {
    hide ReadDigests, PrintDigests;
    if info.listed.Some? {
      DigestsInverse(info.listed.value, style.mark, more);
      assert (PrintCrcs(info, style) + more)[1..] == PrintDigests(info.listed.value, style.mark) + more;
    } else {
      assert PrintCrcs(info, style) + more == more;
    }
  }

  /** A section reads back as it was written, and the parser stops right behind it. */
  lemma InfoInverse(info: Info, style: Style, crcs: seq<Option<u32>>, maximum: nat, more: seq<byte>)
    requires Sized(info, crcs) && StyleOk(info, style) && Total(info.counts) <= maximum
    ensures ReadInfo(PrintInfo(info, style) + more, crcs, maximum) == Ok((info, more))
  {
    hide ReadCounts, ReadSizes, ReadCrcs, SizeTotal, DigestTotal, Total, StyleOk, PrintCounts, PrintSizes, PrintCrcs;
    var s3 := [ID_END] + more;
    var s2 := PrintCrcs(info, style) + s3;
    var s1 := PrintSizes(info) + s2;
    assert PrintInfo(info, style) + more == PrintCounts(info, style) + s1;
    NextIds(info, style, more);
    CountsInverse(info, style, s1);
    SizesInverse(info, s2);
    CrcsInverse(info, style, DigestTotal(info.counts, crcs), s3);
    assert s3[1..] == more;
  }

  /** What follows each part does not begin with the identifier of that part. */
  lemma NextIds(info: Info, style: Style, more: seq<byte>)
    ensures var s2 := PrintCrcs(info, style) + ([ID_END] + more);
            var s1 := PrintSizes(info) + s2;
            s1 != [] && s1[0] != ID_NUM_UNPACK_STREAM && s2 != [] && s2[0] != ID_SIZE
  {
    hide PrintUints, PrintDigests;
  }

  /** The bytes of a section: one folder of two members, with the size of the first and the digests of both. */
  lemma TwoMembers(size: byte, first: u32, second: u32)
    requires size < 0x80
    ensures PrintInfo(Info([2], Some([size]), Some([Some(first), Some(second)])), Style(true, 1))
         == [0x0d, 2, 0x09, size, 0x0a, 1] + LittleBytes(first, 4) + LittleBytes(second, 4) + [0x00]
  {
    var info, style := Info([2], Some([size]), Some([Some(first), Some(second)])), Style(true, 1);
    CountOfTwo(info, style);
    OneSize(info, size);
    BothDigests(info, style, first, second);
    hide PrintCounts, PrintSizes, PrintCrcs, LittleBytes;
    Assembled([0x0d, 2], [0x09, size], [0x0a, 1], LittleBytes(first, 4), LittleBytes(second, 4), [0x00]);
    assert [0x0d, 2] + [0x09, size] + [0x0a, 1] == [0x0d, 2, 0x09, size, 0x0a, 1];
  }

  lemma Assembled(a: seq<byte>, b: seq<byte>, c: seq<byte>, d: seq<byte>, e: seq<byte>, f: seq<byte>)
    ensures a + (b + ((c + (d + e)) + f)) == (a + b + c) + d + e + f
  {
  }

  lemma CountOfTwo(info: Info, style: Style)
    requires info.counts == [2] && style.writeCounts
    ensures PrintCounts(info, style) == [0x0d, 2]
  {
    SmallUint(2);
    OneUint(2);
    hide EncodeUint, PrintUints;
  }

  lemma OneSize(info: Info, size: byte)
    requires info.values == Some([size]) && size < 0x80
    ensures PrintSizes(info) == [0x09, size]
  {
    SmallUint(size);
    OneUint(size);
    hide EncodeUint, PrintUints;
  }

  lemma BothDigests(info: Info, style: Style, first: u32, second: u32)
    requires info.listed == Some([Some(first), Some(second)]) && style.mark == 1
    ensures PrintCrcs(info, style) == [0x0a, 1] + (LittleBytes(first, 4) + LittleBytes(second, 4))
  {
    hide PrintDefined, LittleBytes;
    TwoDigests(first, second);
  }

  lemma {:induction false} OnesTotal(n: nat)
    ensures Total(Ones(n)) == n
  {
    if n > 0 {
      assert Ones(n)[..n - 1] == Ones(n - 1);
      OnesTotal(n - 1);
    }
  }

  /** An empty section stands for one member in every folder. */
  lemma EmptySection(crcs: seq<Option<u32>>, maximum: nat, more: seq<byte>)
    ensures var x := ReadInfo([0x00] + more, crcs, maximum);
            if |crcs| > maximum then x.Err? else x == Ok((Info(seq(|crcs|, _ => 1), None, None), more))
  {
    OnesTotal(|crcs|);
    hide SizeTotal, DigestTotal, Total;
    assert ([0x00] + more)[1..] == more;
    assert Ones(|crcs|) == seq(|crcs|, _ => 1);
  }

  /** Numbers below 128 are their own encoding. */
  lemma SmallUint(v: byte)
    requires v < 0x80
    ensures EncodeUint(v) == [v]
  {
    assert Threshold(1) == 0x80 && Pow2(8) == 0x100 && Pow256(0) == 1;
    assert ExtraFrom(v, 0) == 0;
    assert LittleBytes(v, 0) == [];
  }

  lemma OneUint(v: u64)
    ensures PrintUints([v]) == EncodeUint(v)
  {
    hide EncodeUint;
    assert PrintUints([v][1..]) == [];
  }

  lemma TwoDigests(first: u32, second: u32)
    ensures PrintDefined([Some(first), Some(second)]) == LittleBytes(first, 4) + LittleBytes(second, 4)
  {
    hide LittleBytes;
    var crcs: seq<Option<u32>> := [Some(first), Some(second)];
    assert crcs[1..] == [Some(second)] && |crcs[1..][1..]| == 0;
    assert PrintDefined(crcs[1..]) == LittleBytes(second, 4) + [];
  }

  // ---- the parser ----

  /** `x` is `y` with `head` in front of what it read. */
  ghost predicate Continues<T>(x: Result<(seq<T>, seq<byte>)>, y: Result<(seq<T>, seq<byte>)>, head: seq<T>) {
    (x.Ok? <==> y.Ok?) && (x.Ok? ==> x.value == (head + y.value.0, y.value.1))
  }

  lemma ContinuesSelf<T>(x: Result<(seq<T>, seq<byte>)>)
    ensures Continues(x, x, [])
  {
    if x.Ok? { assert [] + x.value.0 == x.value.0; }
  }

  lemma ContinuesStep<T>(x: Result<(seq<T>, seq<byte>)>, y: Result<(seq<T>, seq<byte>)>,
                         z: Result<(seq<T>, seq<byte>)>, head: seq<T>, v: T)
    requires Continues(x, y, head) && (y.Ok? <==> z.Ok?)
    requires y.Ok? ==> y.value == ([v] + z.value.0, z.value.1)
    ensures Continues(x, z, head + [v])
  {
    if y.Ok? { assert head + ([v] + z.value.0) == head + [v] + z.value.0; }
  }

  lemma ContinuesDone<T>(x: Result<(seq<T>, seq<byte>)>, s: seq<byte>, head: seq<T>)
    requires Continues(x, Ok(([], s)), head)
    ensures x == Ok((head, s))
  {
    assert head + [] == head;
  }

  method ParseSizes(reader: BoundedReader, count: nat) returns (r: Result<seq<u64>>)
    requires reader.Valid()
    modifies reader
    ensures reader.Valid()
    ensures var x := ReadUints(old(reader.Rest()), count);
            (r.Ok? <==> x.Ok?) && (r.Ok? ==> x.value == (r.value, reader.Rest()))
  {
    hide DecodeUint, Continues;
    ghost var whole := ReadUints(reader.Rest(), count);
    ContinuesSelf(whole);
    var sizes: seq<u64> := [];
    for k := 0 to count
      invariant reader.Valid() && Continues(whole, ReadUints(reader.Rest(), count - k), sizes)
    {
      ghost var s := reader.Rest();
      UintsUnfold(whole, s, count - k, sizes);
      var size :- reader.ReadUint();
      ContinuesStep(whole, ReadUints(s, count - k), ReadUints(reader.Rest(), count - k - 1), sizes, size);
      sizes := sizes + [size];
    }
    ContinuesDone(whole, reader.Rest(), sizes);
    r := Ok(sizes);
  }

  lemma UintsUnfold(whole: Result<(seq<u64>, seq<byte>)>, s: seq<byte>, n: nat, head: seq<u64>)
    requires n > 0 && Continues(whole, ReadUints(s, n), head)
    ensures DecodeUint(s).Err? ==> whole.Err?
    ensures DecodeUint(s).Ok? ==>
              var v, y, z := DecodeUint(s).value.0, ReadUints(s, n), ReadUints(DecodeUint(s).value.1, n - 1);
              && v < 0x1_0000_0000_0000_0000 && (y.Ok? <==> z.Ok?)
              && (y.Ok? ==> y.value == ([v] + z.value.0, z.value.1))
  {
    hide DecodeUint;
    if DecodeUint(s).Ok? { UintFits(s); }
  }

  /** The mask before bit `k` of a byte: none at a byte boundary, where the next byte is due. */
  function MaskAt(k: nat): nat {
    if k % 8 == 0 then 0 else Pow2(7 - k % 8)
  }

  /** The bit under the mask, and the mask after it. */
  lemma MaskedBit(current: byte, k: nat, mask: nat)
    requires mask == if k % 8 == 0 then 0x80 else MaskAt(k)
    ensures mask > 0 && (current / mask % 2 == 1 <==> BitOf(current, k % 8)) && mask / 2 == MaskAt(k + 1)
  {
    assert Pow2(7) == 0x80;
    if k % 8 == 7 {
      assert (k + 1) % 8 == 0;
    } else {
      assert (k + 1) % 8 == k % 8 + 1;
    }
  }

  lemma ByteCount(k: nat)
    ensures (k + 8) / 8 == k / 8 + 1 && (k + 7) / 8 == if k % 8 == 0 then k / 8 else k / 8 + 1
    ensures (k + 1) % 8 != 0 ==> (k + 1) / 8 == k / 8
  {
  }

  lemma FlagIs(s: seq<byte>, k: nat, current: byte)
    requires k / 8 < |s| && current == s[k / 8]
    ensures FlagAt(s, k) == BitOf(current, k % 8)
  {
  }

  lemma MaskSome(k: nat)
    ensures MaskAt(k) == 0 <==> k % 8 == 0
  {
  }

  method ParseBits(reader: BoundedReader, count: u64) returns (r: Result<seq<bool>>)
    requires reader.Valid()
    modifies reader
    ensures reader.Valid()
    ensures var x := ReadBits(old(reader.Rest()), count);
            (r.Ok? <==> x.Ok?) && (r.Ok? ==> x.value == (r.value, reader.Rest()))
  {
    hide MaskAt, FlagAt;
    ghost var s := reader.Rest();
    MaskSome(0);
    var values: seq<bool> := [];
    var current: byte, mask: nat := 0, 0;
    for k := 0 to count
      invariant reader.Valid() && |s| >= (k + 7) / 8 && reader.Rest() == s[(k + 7) / 8..]
      invariant |values| == k && forall j | 0 <= j < k :: values[j] == FlagAt(s, j)
      invariant mask == MaskAt(k) && (k % 8 != 0 ==> current == s[k / 8])
    {
      MaskSome(k);
      if mask == 0 {
        current :- reader.ReadU8();
        mask := 0x80;
      }
      ByteCount(k);
      MaskedBit(current, k, mask);
      FlagIs(s, k, current);
      values := values + [current / mask % 2 == 1];
      mask := mask / 2;
    }
    assert ReadBits(s, count).value.0 == values;
    r := Ok(values);
  }

  method ParseDefined(reader: BoundedReader, defined: seq<bool>) returns (r: Result<seq<Option<u32>>>)
    requires reader.Valid()
    modifies reader
    ensures reader.Valid()
    ensures var x := ReadDefined(old(reader.Rest()), defined);
            (r.Ok? <==> x.Ok?) && (r.Ok? ==> x.value == (r.value, reader.Rest()))
  {
    hide LittleEndian, Continues;
    ghost var whole := ReadDefined(reader.Rest(), defined);
    ContinuesSelf(whole);
    assert defined[0..] == defined;
    var digests: seq<Option<u32>> := [];
    for k := 0 to |defined|
      invariant reader.Valid() && Continues(whole, ReadDefined(reader.Rest(), defined[k..]), digests)
    {
      assert defined[k..][0] == defined[k] && defined[k..][1..] == defined[k + 1..];
      ghost var s := reader.Rest();
      DefinedUnfold(whole, s, defined[k..], digests);
      var digest: Option<u32> := None;
      if defined[k] {
        var value :- reader.ReadU32Le();
        digest := Some(value);
      }
      ContinuesStep(whole, ReadDefined(s, defined[k..]), ReadDefined(reader.Rest(), defined[k + 1..]), digests, digest);
      digests := digests + [digest];
    }
    ContinuesDone(whole, reader.Rest(), digests);
    r := Ok(digests);
  }

  lemma DefinedUnfold(whole: Result<(seq<Option<u32>>, seq<byte>)>, s: seq<byte>, defined: seq<bool>,
                      head: seq<Option<u32>>)
    requires defined != [] && Continues(whole, ReadDefined(s, defined), head)
    ensures defined[0] && |s| < 4 ==> whole.Err?
    ensures !defined[0] || |s| >= 4 ==>
              var y, z := ReadDefined(s, defined), ReadDefined(if defined[0] then s[4..] else s, defined[1..]);
              && (y.Ok? <==> z.Ok?)
              && (y.Ok? ==> y.value == ([if defined[0] then Some(ReadU32(s).value.0) else None] + z.value.0, z.value.1))
  {
  }

  method ParseDigests(reader: BoundedReader, count: u64) returns (r: Result<seq<Option<u32>>>)
    requires reader.Valid()
    modifies reader
    ensures reader.Valid()
    ensures var x := ReadDigests(old(reader.Rest()), count);
            (r.Ok? <==> x.Ok?) && (r.Ok? ==> x.value == (r.value, reader.Rest()))
  {
    hide ReadBits, ReadDefined;
    if count == 0 {
      return Ok([]);
    }
    var allDefined :- reader.ReadU8();
    var defined;
    if allDefined == 0 {
      defined :- ParseBits(reader, count);
    } else {
      defined := seq(count, _ => true);
    }
    r := ParseDefined(reader, defined);
  }

  /** What is left is the identifier just read and the rest of the reader. */
  ghost predicate Next<T>(r: Result<(T, byte)>, x: Result<(T, seq<byte>)>, rest: seq<byte>) {
    && (r.Ok? <==> x.Ok? && x.value.1 != [])
    && (r.Ok? ==> x.value == (r.value.0, [r.value.1] + rest))
  }

  method ParseCounts(reader: BoundedReader, folders: nat) returns (r: Result<(seq<u64>, byte)>)
    requires reader.Valid()
    modifies reader
    ensures reader.Valid() && Next(r, ReadCounts(old(reader.Rest()), folders), reader.Rest())
  {
    hide ReadUints;
    ghost var s := reader.Rest();
    var id :- reader.ReadU8();
    assert s == [id] + reader.Rest();
    var counts := Ones(folders);
    if id == ID_NUM_UNPACK_STREAM {
      counts :- ParseSizes(reader, folders);
      ghost var rest := reader.Rest();
      id :- reader.ReadU8();
      assert rest == [id] + reader.Rest();
    }
    r := Ok((counts, id));
  }

  method ParseExplicitSizes(reader: BoundedReader, id: byte, count: nat) returns (r: Result<(Option<seq<u64>>, byte)>)
    requires reader.Valid()
    modifies reader
    ensures reader.Valid() && Next(r, ReadSizes([id] + old(reader.Rest()), count), reader.Rest())
  {
    hide ReadUints;
    assert ([id] + reader.Rest())[1..] == reader.Rest();
    if id != ID_SIZE {
      return Ok((None, id));
    }
    var values :- ParseSizes(reader, count);
    ghost var rest := reader.Rest();
    var next :- reader.ReadU8();
    assert rest == [next] + reader.Rest();
    r := Ok((Some(values), next));
  }

  method ParseCrcs(reader: BoundedReader, id: byte, count: u64) returns (r: Result<(Option<seq<Option<u32>>>, byte)>)
    requires reader.Valid()
    modifies reader
    ensures reader.Valid() && Next(r, ReadCrcs([id] + old(reader.Rest()), count), reader.Rest())
  {
    hide ReadDigests;
    assert ([id] + reader.Rest())[1..] == reader.Rest();
    if id != ID_CRC {
      return Ok((None, id));
    }
    var listed :- ParseDigests(reader, count);
    ghost var rest := reader.Rest();
    var next :- reader.ReadU8();
    assert rest == [next] + reader.Rest();
    r := Ok((Some(listed), next));
  }

  /** `parse_substreams_info`: counts, then the lists they announce, each behind its identifier. */
  method ParseSubstreamsInfo(reader: BoundedReader, crcs: seq<Option<u32>>, maximum: u64) returns (r: Result<Info>)
    requires reader.Valid()
    modifies reader
    ensures reader.Valid()
    ensures var x := ReadInfo(old(reader.Rest()), crcs, maximum);
            (r.Ok? <==> x.Ok?) && (r.Ok? ==> x.value == (r.value, reader.Rest()))
  {
    hide ReadCounts, SizeTotal, DigestTotal, Total;
    var counts :- ParseCounts(reader, |crcs|);
    var totals :- CountValues(counts.0, crcs, maximum);
    hide ReadSizes;
    var values :- ParseExplicitSizes(reader, counts.1, totals.1);
    hide ReadCrcs;
    var listed :- ParseCrcs(reader, values.1, totals.2);
    if listed.1 != ID_END {
      return Err(Format);
    }
    r := Ok(Info(counts.0, values.0, listed.0));
  }
}
