/** Extraction of a whole archive in natural order, and what a successful verification promises for it. */
module NaturalExtraction {
  import opened Prelude
  import opened BitStrings
  import opened Checksum
  import opened Substreams
  import opened MemberMapping
  import opened Extraction
  import opened PackedStreams

  // ---- what a sink sees ----

  datatype Event = Begin(member: nat, size: nat) | Data(member: nat, chunk: seq<byte>) | Finish(member: nat)

  const CHUNK: nat := 4096

  function Writes(i: nat, data: seq<byte>): seq<Event>
    decreases |data|
  {
    if data == [] then []
    else
      var n := Min(|data|, CHUNK);
      [Data(i, data[..n])] + Writes(i, data[n..])
  }

  /** As many writes as there are stretches of 4096 bytes, the last one perhaps shorter. */
  lemma {:induction false} WritesAt(i: nat, data: seq<byte>, k: nat)
    ensures |Writes(i, data)| == (|data| + 4095) / 4096
    ensures 4096 * k < |data| ==>
              k < |Writes(i, data)| && Writes(i, data)[k] == Data(i, data[4096 * k..Min(4096 * k + 4096, |data|)])
    decreases |data|
  {
    if data != [] {
      var n := Min(|data|, CHUNK);
      var rest := data[n..];
      WritesAt(i, rest, if k > 0 then k - 1 else 0);
      if k > 0 && 4096 * k < |data| {
        assert rest[4096 * (k - 1)..Min(4096 * (k - 1) + 4096, |rest|)] == data[4096 * k..Min(4096 * k + 4096, |data|)];
      }
    }
  }

  /** A delivered member: its size, its bytes, and the mark that its digest was right. */
  function Group(i: nat, data: seq<byte>): seq<Event> {
    [Begin(i, |data|)] + Writes(i, data) + [Finish(i)]
  }

  /** A sink that keeps what it accepts. The program may be refused at any event. */
  class EntrySink {
    var log: seq<Event>
    const refuses: nat -> bool

    constructor (refuses: nat -> bool)
      ensures log == [] && this.refuses == refuses
    {
      log := [];
      this.refuses := refuses;
    }

    method Accept(e: Event) returns (r: Result<()>)
      modifies this
      ensures r.Ok? <==> !refuses(|old(log)|)
      ensures log == if r.Ok? then old(log) + [e] else old(log)
    {
      if refuses(|log|) {
        return Err(Error.Sink);
      }
      log := log + [e];
      r := Ok(());
    }

    ghost predicate Willing() {
      forall n: nat :: !refuses(n)
    }
  }

  /** A member that was begun but not finished. */
  ghost predicate Started(partial: seq<Event>, i: nat, data: seq<byte>) {
    partial <= [Begin(i, |data|)] + Writes(i, data)
  }

  /** Hands a member to the sink; `Finish` follows only a matching digest. */
  method Deliver(i: nat, data: seq<byte>, crc: Option<u32>, sink: EntrySink) returns (r: Result<()>)
    modifies sink
    ensures r.Ok? ==> sink.log == old(sink.log) + Group(i, data) && Matches(crc, data)
    ensures r.Err? ==> old(sink.log) <= sink.log && Started(sink.log[|old(sink.log)|..], i, data)
    ensures sink.Willing() ==>
              if Matches(crc, data) then r.Ok?
              else r.Err? && sink.log == old(sink.log) + ([Begin(i, |data|)] + Writes(i, data))
  {
    hide Matches, Writes, TableUpdate, Crc32.Valid, Value, Xor;
    ghost var before := sink.log;
    var begun := sink.Accept(Begin(i, |data|));
    if begun.Err? {
      assert sink.log[|before|..] == [];
      return begun;
    }
    var checksum := new Crc32();
    var written := WriteAll(i, data, checksum, sink);
    if written.Err? {
      StartedMore(before, sink.log, i, data);
      return written;
    }
    ghost var opening := [Begin(i, |data|)] + Writes(i, data);
    Regroup(before, [Begin(i, |data|)], Writes(i, data));
    var computed := checksum.Finalize();
    DigestIs(data, computed, crc);
    if crc.Some? && Value(computed) != crc.value {
      return Err(Error.Checksum);
    }
    r := sink.Accept(Finish(i));
    Regroup(before, opening, [Finish(i)]);
  }

  lemma Regroup<T>(a: seq<T>, b: seq<T>, c: seq<T>)
    ensures a + b + c == a + (b + c) && (a + (b + c))[|a|..] == b + c && (a + b)[|a|..] == b
  {
  }

  lemma StartedMore(before: seq<Event>, log: seq<Event>, i: nat, data: seq<byte>)
    requires before + [Begin(i, |data|)] <= log && log[|before| + 1..] <= Writes(i, data)
    ensures before <= log && Started(log[|before|..], i, data)
  {
    hide Writes;
    assert log[|before|..] == [Begin(i, |data|)] + log[|before| + 1..];
  }

  lemma DigestIs(data: seq<byte>, computed: Bits, crc: Option<u32>)
    requires computed == Xor(TableUpdate(Ones(), data), Ones())
    ensures Matches(crc, data) <==> crc.None? || Value(computed) == crc.value
  {
    hide TableUpdate, BitUpdate;
    UpdatesAgree(Ones(), data);
  }

  lemma NoWrites(i: nat, data: seq<byte>)
    ensures data == [] ==> Writes(i, data) == []
  {
  }

  /** One write further into the member. */
  lemma WritesNext(i: nat, data: seq<byte>, at: nat, n: nat, done: seq<Event>)
    requires at < |data| && n == Min(|data| - at, CHUNK) && Writes(i, data) == done + Writes(i, data[at..])
    ensures Writes(i, data) == done + [Data(i, data[at..at + n])] + Writes(i, data[at + n..])
    ensures data[..at + n] == data[..at] + data[at..at + n]
  {
    var chunk, rest := data[at..at + n], Writes(i, data[at + n..]);
    assert data[at..][..n] == chunk && data[at..][n..] == data[at + n..];
    assert Writes(i, data[at..]) == [Data(i, chunk)] + rest;
    hide Writes;
    assert done + ([Data(i, chunk)] + rest) == done + [Data(i, chunk)] + rest;
  }

  method WriteAll(i: nat, data: seq<byte>, checksum: Crc32, sink: EntrySink) returns (r: Result<()>)
    requires checksum.Valid() && checksum.state == Ones()
    modifies sink, checksum
    ensures checksum.Valid()
    ensures r.Ok? ==> sink.log == old(sink.log) + Writes(i, data) && checksum.state == TableUpdate(Ones(), data)
    ensures r.Err? ==> old(sink.log) <= sink.log && sink.log[|old(sink.log)|..] <= Writes(i, data)
    ensures sink.Willing() ==> r.Ok?
  {
    hide TableUpdate, Crc32.Valid, Writes;
    StartState();
    var at: nat := 0;
    ghost var before := sink.log;
    ghost var done: seq<Event> := [];
    assert data[0..] == data && before + done == before && data[..0] == [];
    while at < |data|
      invariant at <= |data| && checksum.Valid()
      invariant sink.log == before + done && Writes(i, data) == done + Writes(i, data[at..])
      invariant checksum.state == TableUpdate(Ones(), data[..at])
    {
      var n := Min(|data| - at, CHUNK);
      var chunk := data[at..at + n];
      WritesNext(i, data, at, n, done);
      checksum.Update(chunk);
      UpdateMore(data[..at], chunk, data[..at + n]);
      var accepted := sink.Accept(Data(i, chunk));
      if accepted.Err? {
        assert sink.log[|before|..] == done;
        return accepted;
      }
      assert before + done + [Data(i, chunk)] == before + (done + [Data(i, chunk)]);
      done := done + [Data(i, chunk)];
      at := at + n;
    }
    NoWrites(i, data[at..]);
    assert data[..at] == data && done + [] == done;
    r := Ok(());
  }

  lemma StartState()
    ensures TableUpdate(Ones(), []) == Ones()
  {
  }

  // ---- natural order ----

  /** The streams of the members from `i` on. */
  function StreamsTail(members: seq<Member>, i: nat): seq<Mapping>
    requires i <= |members|
    decreases |members| - i
  {
    if i == |members| then []
    else (if members[i].stream.Some? then [members[i].stream.value] else []) + StreamsTail(members, i + 1)
  }

  lemma {:induction false} StreamsSplit(members: seq<Member>, i: nat)
    requires i <= |members|
    ensures StreamsOf(members) == StreamsOf(members[..i]) + StreamsTail(members, i)
    decreases |members| - i
  {
    if i == |members| {
      assert members[..i] == members;
    } else {
      StreamsSplit(members, i + 1);
      assert members[..i + 1][..i] == members[..i];
      var own := if members[i].stream.Some? then [members[i].stream.value] else [];
      assert StreamsOf(members[..i + 1]) == StreamsOf(members[..i]) + own;
      Regroup(StreamsOf(members[..i]), own, StreamsTail(members, i + 1));
    }
  }

  /** The next substream: in the same folder, or at the start of a later one. */
  lemma {:induction false} NextStream(folders: Folders, f: nat, j: nat)
    requires At(folders, f, j) && StreamsFrom(folders, f, j) != []
    ensures var m := StreamsFrom(folders, f, j)[0];
            && m.folder < |folders| && m.substream < |folders[m.folder]|
            && m.size == folders[m.folder][m.substream].size && m.crc == folders[m.folder][m.substream].crc
            && (if f < |folders| && j < |folders[f]| then m.folder == f && m.substream == j
                else f < m.folder && m.substream == 0)
            && StreamsFrom(folders, f, j)[1..] == StreamsFrom(folders, m.folder, m.substream + 1)
            && forall g | f < g < m.folder :: folders[g] == []
    decreases |folders| - f
  {
    if j == |folders[f]| {
      NextAgain(folders, f + 1);
    }
  }

  /** At the start of a folder, the next substream is its first, or a later folder's. */
  lemma {:induction false} NextAgain(folders: Folders, f: nat)
    requires f <= |folders| && StreamsFrom(folders, f, 0) != []
    ensures var m := StreamsFrom(folders, f, 0)[0];
            && f <= m.folder < |folders| && m.substream == 0 && 0 < |folders[m.folder]|
            && m.size == folders[m.folder][0].size && m.crc == folders[m.folder][0].crc
            && StreamsFrom(folders, f, 0)[1..] == StreamsFrom(folders, m.folder, 1)
            && forall g | f <= g < m.folder :: folders[g] == []
    decreases |folders| - f
  {
    if 0 == |folders[f]| {
      NextAgain(folders, f + 1);
    }
  }

  // ---- what a verified archive is ----

  function OutputSum(decs: seq<Decoded>, k: nat): nat
    requires k <= |decs|
  {
    if k == 0 then 0 else OutputSum(decs, k - 1) + |decs[k - 1].bytes|
  }

  /** Substream `j` lies inside the folder's output and has its digest. */
  ghost predicate MemberOk(subs: seq<Substream>, j: nat, bytes: seq<byte>) {
    && Bounds(subs, j, |bytes|).Ok?
    && var (start, end) := Bounds(subs, j, |bytes|).value;
       start <= end <= |bytes| && j < |subs| && Matches(subs[j].crc, bytes[start..end])
  }

  /** Folder `f` decodes to `dec` after `total` bytes of output, and all its digests match. */
  ghost predicate FolderGood(a: Archive, d: FolderDecoder, total: nat, f: nat, dec: Decoded)
    requires f < |a.folders| == |a.roots|
  {
    && total <= a.limits.total
    && var cap := FolderMaximum(a.folders[f], a.roots[f], a.limits, a.limits.total - total);
       && cap.Ok? && d(f, cap.value) == Ok(dec)
       && total + |dec.bytes| <= a.limits.total && !dec.crcMismatch
       && forall j | 0 <= j < |a.folders[f]| :: MemberOk(a.folders[f], j, dec.bytes)
  }

  ghost predicate FolderVerified(a: Archive, d: FolderDecoder, decs: seq<Decoded>, before: nat, f: nat)
    requires f < |decs| <= |a.folders| == |a.roots|
  {
    FolderGood(a, d, before + OutputSum(decs, f), f, decs[f])
  }

  /** Every folder decodes, in order and within the limits, and all digests match. `before` counts output
      that was decoded earlier. */
  ghost predicate AllVerified(a: Archive, d: FolderDecoder, decs: seq<Decoded>, before: nat)
    requires |a.folders| == |a.roots|
  {
    |decs| == |a.folders| && forall f | 0 <= f < |decs| :: FolderVerified(a, d, decs, before, f)
  }

  /** The same for the folders that have members: no other folder is needed to extract. */
  ghost predicate AllNeeded(a: Archive, d: FolderDecoder, decs: seq<Decoded>, before: nat)
    requires |a.folders| == |a.roots|
  {
    && |decs| == |a.folders|
    && forall f | 0 <= f < |decs| && a.folders[f] != [] :: FolderVerified(a, d, decs, before, f)
  }

  lemma VerifiedNeeded(a: Archive, d: FolderDecoder, decs: seq<Decoded>, before: nat)
    requires |a.folders| == |a.roots| && AllVerified(a, d, decs, before)
    ensures AllNeeded(a, d, decs, before)
  {
    hide FolderVerified;
  }

  // ---- the extraction loop ----

  /** The events of the members before `k`, each with the bytes it has when read alone. */
  ghost function GroupsOf(a: Archive, d: FolderDecoder, k: nat): seq<Event>
    requires k <= |a.members| && |a.roots| == |a.folders|
  {
    if k == 0 then [] else GroupsOf(a, d, k - 1) + GroupOf(a, d, k - 1)
  }

  /** Directories and anti-items give no events. */
  ghost function GroupOf(a: Archive, d: FolderDecoder, i: nat): seq<Event>
    requires i < |a.members| && |a.roots| == |a.folders|
  {
    var m := a.members[i];
    if m.stream.None? && (!m.isEmptyFile || m.isAnti) then []
    else
      var x := MemberBytes(a, d, i);
      if x.Ok? then Group(i, x.value) else []
  }

  /** Every streamed member before `k` reads successfully on its own. */
  ghost predicate AllRead(a: Archive, d: FolderDecoder, k: nat)
    requires k <= |a.members| && |a.roots| == |a.folders|
  {
    forall i | 0 <= i < k && a.members[i].stream.Some? :: MemberBytes(a, d, i).Ok?
  }

  /** The bytes delivered for the members before `k`. */
  ghost function DeliveredTo(a: Archive, d: FolderDecoder, k: nat): nat
    requires k <= |a.members| && |a.roots| == |a.folders|
  {
    if k == 0 then 0
    else
      DeliveredTo(a, d, k - 1) +
      if a.members[k - 1].stream.Some? && MemberBytes(a, d, k - 1).Ok? then |MemberBytes(a, d, k - 1).value| else 0
  }

  /** The variables of the loop: the decoded folder, where its next member starts, and what was decoded so far. */
  datatype State = State(folder: Option<nat>, decoded: Decoded, next: nat, offset: nat, total: nat, decodes: seq<nat>)

  ghost predicate Increasing(decodes: seq<nat>) {
    forall j, k | 0 <= j < k < |decodes| :: decodes[j] < decodes[k]
  }

  /** The folder is decoded as it would be on its own, and the next member starts where it should. */
  ghost predicate FolderState(a: Archive, d: FolderDecoder, f: nat, s: State)
    requires |a.roots| == |a.folders|
  {
    && f < |a.folders| && s.next <= |a.folders[f]|
    && DecodeFull(a, d, f) == Ok(s.decoded) && !s.decoded.crcMismatch
    && s.offset <= |s.decoded.bytes| && s.total <= a.limits.total
    && (s.next < |a.folders[f]| ==> Known(a.folders[f], s.next) && s.offset == Prefix(a.folders[f], s.next))
    && Increasing(s.decodes) && s.decodes != [] && s.decodes[|s.decodes| - 1] == f
  }

  ghost predicate StateOk(a: Archive, d: FolderDecoder, i: nat, s: State)
    requires |a.roots| == |a.folders| && i <= |a.members|
  {
    if s.folder.None? then
      s.total == 0 && s.decodes == [] && StreamsTail(a.members, i) == StreamsFrom(a.folders, 0, 0)
    else
      && FolderState(a, d, s.folder.value, s)
      && StreamsTail(a.members, i) == StreamsFrom(a.folders, s.folder.value, s.next)
  }

  /** The decoded folders are those of `decs`, at no greater total. */
  ghost predicate Follows(a: Archive, d: FolderDecoder, s: State, decs: seq<Decoded>, before: nat)
    requires |a.roots| == |a.folders|
  {
    && AllNeeded(a, d, decs, before)
    && (s.folder.Some? ==>
          && s.folder.value < |decs| && s.decoded == decs[s.folder.value]
          && s.total <= before + OutputSum(decs, s.folder.value + 1))
  }

  lemma {:induction false} SumGrows(decs: seq<Decoded>, j: nat, k: nat)
    requires j <= k <= |decs|
    ensures OutputSum(decs, j) <= OutputSum(decs, k)
    decreases k
  {
    if j < k { SumGrows(decs, j, k - 1); }
  }

  /** More allowance never turns a folder down, and never lowers its cap. */
  lemma MaximumMonotone(subs: seq<Substream>, root: Option<u64>, limits: Limits, less: nat, more: nat)
    requires less <= more && FolderMaximum(subs, root, limits, less).Ok?
    ensures FolderMaximum(subs, root, limits, more).Ok?
    ensures FolderMaximum(subs, root, limits, less).value <= FolderMaximum(subs, root, limits, more).value
  {
    hide Allowance;
  }

  /** The member's range as the loop computes it is the one `member_bounds` computes. */
  lemma LocateIs(subs: seq<Substream>, j: nat, limits: Limits, size: nat)
    requires j < |subs| && Known(subs, j) && Prefix(subs, j) <= size
    ensures var start, end := Prefix(subs, j), MemberEnd(subs, j, Prefix(subs, j), size);
            Locate(subs, j, limits, size) ==
            if end.Err? then Err(Unsupported)
            else if end.value > size then Err(Format)
            else if end.value - start > limits.entry then Err(LimitExceeded)
            else Ok((start, end.value))
  {
    hide Prefix, Known;
  }

  /** A verified folder's members all fit the entry limit, an unknown last one included. */
  lemma VerifiedFits(a: Archive, d: FolderDecoder, decs: seq<Decoded>, before: nat, f: nat, j: nat)
    requires |a.folders| == |a.roots| && AllNeeded(a, d, decs, before) && Monotone(d)
    requires f < |a.folders| && j < |a.folders[f]|
    ensures Locate(a.folders[f], j, a.limits, |decs[f].bytes|).Ok?
    ensures var (start, end) := Locate(a.folders[f], j, a.limits, |decs[f].bytes|).value;
            Matches(a.folders[f][j].crc, decs[f].bytes[start..end])
  {
    hide Matches, Prefix, Known;
    var subs, size := a.folders[f], |decs[f].bytes|;
    assert FolderVerified(a, d, decs, before, f);
    assert MemberOk(subs, j, decs[f].bytes);
    AllowanceKnows(subs, |subs|, a.limits);
    if subs[j].size.None? {
      AllowanceLast(subs, a.limits);
    }
  }

  lemma AllowanceLast(subs: seq<Substream>, limits: Limits)
    requires subs != [] && UnknownFinal(subs) && Allowance(subs, |subs|, limits).Ok?
    ensures Known(subs, |subs| - 1)
    ensures Allowance(subs, |subs|, limits).value == Prefix(subs, |subs| - 1) + limits.entry
  {
    AllowanceKnows(subs, |subs| - 1, limits);
  }

  /** A folder decoded within what is left of the total limit. */
  ghost predicate Entered(a: Archive, d: FolderDecoder, f: nat, s: State, t: State)
    requires f < |a.folders| == |a.roots|
  {
    && s.total <= a.limits.total
    && var cap := FolderMaximum(a.folders[f], a.roots[f], a.limits, a.limits.total - s.total);
       && cap.Ok? && d(f, cap.value) == Ok(t.decoded) && !t.decoded.crcMismatch
       && t.total == s.total + |t.decoded.bytes| <= a.limits.total && t.folder == Some(f) && t.next == 0
  }

  // ---- what has been accounted for ----

  /** A folder that has been extracted: verified at its place in the total, or without members and not decoded. */
  ghost predicate Settled(a: Archive, d: FolderDecoder, run: seq<Decoded>, f: nat)
    requires f < |run| <= |a.folders| == |a.roots|
  {
    if a.folders[f] == [] then run[f].bytes == [] else FolderGood(a, d, OutputSum(run, f), f, run[f])
  }

  /** `run` holds the outputs of the folders before the current one, and the total is theirs and its own. */
  ghost predicate Runs(a: Archive, d: FolderDecoder, s: State, run: seq<Decoded>)
    requires |a.folders| == |a.roots|
  {
    if s.folder.None? then run == [] && s.total == 0
    else
      var f := s.folder.value;
      && |run| == f < |a.folders| && a.folders[f] != [] && (forall g | 0 <= g < f :: Settled(a, d, run, g))
      && s.total == OutputSum(run, f) + |s.decoded.bytes| <= a.limits.total && !s.decoded.crcMismatch
      && (var cap := FolderMaximum(a.folders[f], a.roots[f], a.limits, a.limits.total - OutputSum(run, f));
          cap.Ok? && d(f, cap.value) == Ok(s.decoded))
      && forall j | 0 <= j < s.next && j < |a.folders[f]| :: MemberOk(a.folders[f], j, s.decoded.bytes)
  }

  ghost predicate Accounted(a: Archive, d: FolderDecoder, s: State)
    requires |a.folders| == |a.roots|
  {
    exists run :: Runs(a, d, s, run)
  }

  /** Folders without members in between add nothing. */
  function Skipped(n: nat): (run: seq<Decoded>)
    ensures |run| == n && forall k | 0 <= k < n :: run[k].bytes == []
  {
    seq(n, _ => Decoded([], false))
  }

  lemma {:induction false} SkippedSum(run: seq<Decoded>, n: nat, k: nat)
    requires k <= n
    ensures OutputSum(run + Skipped(n), |run| + k) == OutputSum(run, |run|)
  {
    if k == 0 {
      SumPrefix(run, run + Skipped(n), |run|);
    } else {
      SkippedSum(run, n, k - 1);
    }
  }

  lemma SettledStays(a: Archive, d: FolderDecoder, run: seq<Decoded>, more: seq<Decoded>, f: nat)
    requires f < |run| <= |more| <= |a.folders| == |a.roots| && run <= more && Settled(a, d, run, f)
    ensures Settled(a, d, more, f)
  {
    hide FolderGood;
    SumPrefix(run, more, f);
  }

  lemma DoneNext(a: Archive, d: FolderDecoder, s: State, run: seq<Decoded>)
    requires |a.folders| == |a.roots| && s.folder.Some? && Runs(a, d, s, run) && s.next == |a.folders[s.folder.value]|
    ensures var done := run + [s.decoded];
            && |done| <= |a.folders| && OutputSum(done, |done|) == s.total
            && forall g | 0 <= g < |done| :: Settled(a, d, done, g)
  {
    hide FolderMaximum, MemberOk;
    var done, f := run + [s.decoded], |run|;
    SumPrefix(run, done, f);
    SumNext(done, f);
    forall g | 0 <= g < |done|
      ensures Settled(a, d, done, g)
    {
      if g < f {
        SettledStays(a, d, run, done, g);
      }
    }
  }

  /** The outputs once the current folder is done and `f` comes next, all folders in between having no members. */
  lemma RunTo(a: Archive, d: FolderDecoder, s: State, f: nat) returns (run: seq<Decoded>)
    requires |a.folders| == |a.roots| && f <= |a.folders| && Accounted(a, d, s)
    requires s.folder.Some? ==> s.folder.value < f && s.next == |a.folders[s.folder.value]|
    requires forall g | (if s.folder.Some? then s.folder.value + 1 else 0) <= g < f :: a.folders[g] == []
    ensures |run| == f && OutputSum(run, f) == s.total && forall g | 0 <= g < f :: Settled(a, d, run, g)
  {
    hide FolderGood, FolderMaximum, MemberOk;
    var past: seq<Decoded> :| Runs(a, d, s, past);
    var done := if s.folder.Some? then past + [s.decoded] else [];
    if s.folder.Some? {
      DoneNext(a, d, s, past);
    }
    run := done + Skipped(f - |done|);
    SkippedSum(done, f - |done|, f - |done|);
    forall g | 0 <= g < f
      ensures Settled(a, d, run, g)
    {
      if g < |done| {
        SettledStays(a, d, done, run, g);
      }
    }
  }

  /** A new folder continues the account. */
  lemma EnterAccounted(a: Archive, d: FolderDecoder, f: nat, s: State, t: State)
    requires f < |a.folders| == |a.roots| && a.folders[f] != [] && Accounted(a, d, s) && Entered(a, d, f, s, t)
    requires s.folder.Some? ==> s.folder.value < f && s.next == |a.folders[s.folder.value]|
    requires forall g | (if s.folder.Some? then s.folder.value + 1 else 0) <= g < f :: a.folders[g] == []
    ensures Accounted(a, d, t)
  {
    hide FolderMaximum, MemberOk, Settled;
    var run := RunTo(a, d, s, f);
    assert Runs(a, d, t, run);
  }

  /** So does a member that is in range and has its digest. */
  lemma MemberAccounted(a: Archive, d: FolderDecoder, s: State, end: nat)
    requires |a.folders| == |a.roots| && s.folder.Some? && s.folder.value < |a.folders| && Accounted(a, d, s)
    requires s.next < |a.folders[s.folder.value]| && MemberOk(a.folders[s.folder.value], s.next, s.decoded.bytes)
    ensures Accounted(a, d, s.(offset := end, next := s.next + 1))
  {
    hide FolderMaximum, MemberOk, Settled;
    var run: seq<Decoded> :| Runs(a, d, s, run);
    assert Runs(a, d, s.(offset := end, next := s.next + 1), run);
  }

  lemma LocatedOk(subs: seq<Substream>, j: nat, limits: Limits, bytes: seq<byte>, start: nat, end: nat)
    requires j < |subs| && Locate(subs, j, limits, |bytes|) == Ok((start, end))
    requires Matches(subs[j].crc, bytes[start..end])
    ensures MemberOk(subs, j, bytes)
  {
    hide Matches;
  }

  /** A finished run is an account of all folders that have members. */
  lemma RunFinished(a: Archive, d: FolderDecoder, s: State)
    requires |a.folders| == |a.roots| && StateOk(a, d, |a.members|, s) && Accounted(a, d, s)
    ensures exists all :: AllNeeded(a, d, all, 0)
  {
    hide FolderMaximum, MemberOk, FolderGood, DecodeFull;
    RestEmpty(a.folders, if s.folder.Some? then s.folder.value else 0, if s.folder.Some? then s.next else 0);
    var run := RunTo(a, d, s, |a.folders|);
    forall f | 0 <= f < |run| && a.folders[f] != []
      ensures FolderVerified(a, d, run, 0, f)
    {
      assert Settled(a, d, run, f);
    }
    assert AllNeeded(a, d, run, 0);
  }

  lemma {:induction false} RestEmpty(folders: Folders, f: nat, j: nat)
    requires At(folders, f, j) && StreamsFrom(folders, f, j) == []
    ensures f < |folders| ==> j == |folders[f]|
    ensures forall g | f < g < |folders| :: folders[g] == []
    decreases |folders| - f
  {
    if f < |folders| && j == |folders[f]| {
      RestEmpty(folders, f + 1, 0);
    }
  }

  /** Decodes the folder of the next member; folders come in increasing order, so none comes twice. */
  method EnterFolder(a: Archive, d: FolderDecoder, f: nat, s: State, ghost decs: Option<seq<Decoded>>,
                     ghost before: nat)
    returns (r: Result<State>)
    requires |a.roots| == |a.folders| && f < |a.folders| && Monotone(d)
    requires s.folder.Some? ==> FolderState(a, d, s.folder.value, s) && s.folder.value < f
    requires s.folder.None? ==> s.total == 0 && s.decodes == []
    requires a.folders[f] != [] && (decs.Some? ==> Follows(a, d, s, decs.value, before))
    ensures r.Ok? ==>
              && r.value.folder == Some(f) && r.value.next == 0 && FolderState(a, d, f, r.value)
              && r.value.decodes == s.decodes + [f] && Entered(a, d, f, s, r.value)
    ensures decs.Some? ==> r.Ok? && Follows(a, d, r.value, decs.value, before)
  {
    hide FolderMaximum, MemberOk, Bounds;
    assert s.total <= a.limits.total;
    if decs.Some? {
      EnterVerified(a, d, f, s, decs.value, before);
    }
    var remaining := a.limits.total - s.total;
    var maximum := FolderDecodeMaximum(a.folders[f], a.roots[f], a.limits, remaining);
    if maximum.Err? {
      return Err(maximum.error);
    }
    var decoded := d(f, maximum.value);
    if decoded.Err? {
      return Err(decoded.error);
    }
    var total := s.total + |decoded.value.bytes|;
    if total > a.limits.total {
      return Err(LimitExceeded);
    }
    if decoded.value.crcMismatch {
      return Err(Error.Checksum);
    }
    MaximumMonotone(a.folders[f], a.roots[f], a.limits, remaining, a.limits.total);
    r := Ok(State(Some(f), decoded.value, 0, 0, total, s.decodes + [f]));
  }

  /** No folder that is needed fails to decode. */
  lemma EnterVerified(a: Archive, d: FolderDecoder, f: nat, s: State, decs: seq<Decoded>, before: nat)
    requires |a.roots| == |a.folders| && f < |a.folders| && Monotone(d) && Follows(a, d, s, decs, before)
    requires a.folders[f] != []
    requires s.folder.Some? ==> FolderState(a, d, s.folder.value, s) && s.folder.value < f
    requires s.folder.None? ==> s.total == 0
    ensures s.total <= before + OutputSum(decs, f) && s.total <= a.limits.total
    ensures var cap := FolderMaximum(a.folders[f], a.roots[f], a.limits, a.limits.total - s.total);
            cap.Ok? && d(f, cap.value) == Ok(decs[f])
    ensures s.total + |decs[f].bytes| <= a.limits.total && !decs[f].crcMismatch
  {
    hide FolderMaximum, MemberOk, Bounds;
    assert FolderVerified(a, d, decs, before, f);
    if s.folder.Some? {
      SumGrows(decs, s.folder.value + 1, f);
    }
    var total := before + OutputSum(decs, f);
    MaximumMonotone(a.folders[f], a.roots[f], a.limits, a.limits.total - total, a.limits.total - s.total);
  }

  /** The range of the next member of a decoded folder. */
  method LocateNext(a: Archive, d: FolderDecoder, f: nat, s: State, ghost decs: Option<seq<Decoded>>, ghost before: nat)
    returns (r: Result<nat>)
    requires |a.roots| == |a.folders| && FolderState(a, d, f, s) && s.folder == Some(f) && s.next < |a.folders[f]|
    requires Monotone(d) && (decs.Some? ==> Follows(a, d, s, decs.value, before))
    ensures var x := Locate(a.folders[f], s.next, a.limits, |s.decoded.bytes|);
            && (r.Ok? <==> x.Ok?)
            && (r.Ok? ==> x.value == (s.offset, r.value) && s.offset <= r.value <= |s.decoded.bytes|)
    ensures decs.Some? ==> r.Ok? && Matches(a.folders[f][s.next].crc, s.decoded.bytes[s.offset..r.value])
  {
    hide Prefix, Known, Matches, Locate, Bounds;
    LocateIs(a.folders[f], s.next, a.limits, |s.decoded.bytes|);
    if decs.Some? {
      VerifiedFits(a, d, decs.value, before, f, s.next);
    }
    var end := MemberEnd(a.folders[f], s.next, s.offset, |s.decoded.bytes|);
    if end.Err? {
      return Err(end.error);
    }
    if end.value > |s.decoded.bytes| {
      return Err(Format);
    }
    if end.value < s.offset {
      return Err(Format);
    }
    if end.value - s.offset > a.limits.entry {
      return Err(LimitExceeded);
    }
    r := Ok(end.value);
  }

  /** The state is at the substream of the next member. */
  ghost predicate AtMember(a: Archive, d: FolderDecoder, i: nat, s: State)
    requires |a.roots| == |a.folders| && i < |a.members|
  {
    && a.members[i].stream.Some?
    && var m := a.members[i].stream.value;
       && s.folder == Some(m.folder) && FolderState(a, d, m.folder, s)
       && s.next == m.substream < |a.folders[m.folder]|
       && m.size == a.folders[m.folder][s.next].size && m.crc == a.folders[m.folder][s.next].crc
       && StreamsTail(a.members, i + 1) == StreamsFrom(a.folders, m.folder, s.next + 1)
  }

  /** What natural order says about the next member, given where the last one was. */
  lemma NextMember(a: Archive, d: FolderDecoder, i: nat, s: State)
    requires |a.roots| == |a.folders| && i < |a.members| && StateOk(a, d, i, s) && a.members[i].stream.Some?
    ensures var m := a.members[i].stream.value;
            && m.folder < |a.folders| && m.substream < |a.folders[m.folder]|
            && m.size == a.folders[m.folder][m.substream].size && m.crc == a.folders[m.folder][m.substream].crc
            && StreamsTail(a.members, i + 1) == StreamsFrom(a.folders, m.folder, m.substream + 1)
            && (s.folder == Some(m.folder) ==> s.next == m.substream)
            && (s.folder != Some(m.folder) ==> m.substream == 0)
            && (s.folder.Some? && s.folder.value != m.folder ==>
                  s.folder.value < m.folder && s.next == |a.folders[s.folder.value]|)
            && (s.folder != Some(m.folder) ==>
                  forall g | (if s.folder.Some? then s.folder.value + 1 else 0) <= g < m.folder :: a.folders[g] == [])
  {
    hide StreamsFrom;
    var m := a.members[i].stream.value;
    var tail := StreamsTail(a.members, i);
    assert tail[0] == m && tail[1..] == StreamsTail(a.members, i + 1);
    if s.folder.None? {
      NextAgain(a.folders, 0);
    } else {
      NextStream(a.folders, s.folder.value, s.next);
    }
  }

  /** Brings the state to the next member, decoding its folder if it is a new one. The members of the previous
      folder are all done, and the new member is its folder's first: neither mapping error can occur. */
  method Approach(a: Archive, d: FolderDecoder, i: nat, s: State, ghost decs: Option<seq<Decoded>>, ghost before: nat)
    returns (r: Result<State>)
    requires Validated(a) && Monotone(d) && i < |a.members| && a.members[i].stream.Some? && StateOk(a, d, i, s)
    requires Accounted(a, d, s) && (decs.Some? ==> Follows(a, d, s, decs.value, before))
    ensures r.Ok? ==> AtMember(a, d, i, r.value) && Accounted(a, d, r.value)
    ensures decs.Some? ==> r.Ok? && Follows(a, d, r.value, decs.value, before)
  {
    hide FolderState, Follows, StreamsFrom, Natural, Accounted, Entered;
    NextMember(a, d, i, s);
    var m := a.members[i].stream.value;
    r := Ok(s);
    if s.folder != Some(m.folder) {
      if s.folder.Some? && s.next != |a.folders[s.folder.value]| {
        return Err(Format);
      }
      r := EnterFolder(a, d, m.folder, s, decs, before);
      if r.Err? {
        return;
      }
      EnterAccounted(a, d, m.folder, s, r.value);
    }
    if m.substream != r.value.next {
      return Err(Format);
    }
  }

  /** The member read alone has the bytes at the state, if they are in range and have its digest. */
  lemma MemberBytesHere(a: Archive, d: FolderDecoder, i: nat, s: State, end: nat)
    requires Validated(a) && i < |a.members| && AtMember(a, d, i, s) && s.offset <= end <= |s.decoded.bytes|
    requires Locate(a.folders[s.folder.value], s.next, a.limits, |s.decoded.bytes|) == Ok((s.offset, end))
    requires Matches(a.members[i].stream.value.crc, s.decoded.bytes[s.offset..end])
    ensures MemberBytes(a, d, i) == Ok(s.decoded.bytes[s.offset..end])
  {
    hide Locate, Matches, FolderMaximum, Natural;
    MemberLimit(a, d, i, s);
  }

  lemma MemberLimit(a: Archive, d: FolderDecoder, i: nat, s: State)
    requires Validated(a) && i < |a.members| && AtMember(a, d, i, s)
    ensures var m := a.members[i].stream.value; m.size.Some? ==> m.size.value <= a.limits.entry
  {
    hide Natural, StreamsFrom;
    var subs := a.folders[s.folder.value];
    AllowanceKnows(subs, |subs|, a.limits);
  }

  /** The state after the member at it, which ended at `end`. */
  lemma Advanced(a: Archive, d: FolderDecoder, i: nat, s: State, end: nat)
    requires Validated(a) && i < |a.members| && AtMember(a, d, i, s)
    requires Locate(a.folders[s.folder.value], s.next, a.limits, |s.decoded.bytes|) == Ok((s.offset, end))
    ensures StateOk(a, d, i + 1, s.(offset := end, next := s.next + 1))
  {
    hide Natural, StreamsFrom, StreamsTail;
    var subs, j := a.folders[s.folder.value], s.next;
    AllowanceKnows(subs, |subs|, a.limits);
    if j + 1 < |subs| {
      assert end == Prefix(subs, j + 1);
    }
  }

  /** One member with a stream: exactly its own bytes, or nothing finished. */
  method ExtractStreamed(a: Archive, d: FolderDecoder, i: nat, s: State, sink: EntrySink,
                         ghost decs: Option<seq<Decoded>>, ghost before: nat) returns (r: Result<State>, size: nat)
    requires Validated(a) && Monotone(d) && i < |a.members| && a.members[i].stream.Some? && StateOk(a, d, i, s)
    requires Accounted(a, d, s) && (decs.Some? ==> Follows(a, d, s, decs.value, before))
    modifies sink
    ensures r.Ok? ==>
              && StateOk(a, d, i + 1, r.value) && Accounted(a, d, r.value) && MemberBytes(a, d, i).Ok?
              && sink.log == old(sink.log) + Group(i, MemberBytes(a, d, i).value)
              && size == |MemberBytes(a, d, i).value|
    ensures r.Err? ==> old(sink.log) <= sink.log && exists data :: Started(sink.log[|old(sink.log)|..], i, data)
    ensures decs.Some? && sink.Willing() ==> r.Ok?
    ensures decs.Some? && r.Ok? ==> Follows(a, d, r.value, decs.value, before)
  {
    hide Natural, StreamsFrom, Locate, Matches, MemberBytes, Group, Started, DecodeFull, AllNeeded, Accounted, MemberOk;
    size := 0;
    NothingStarted(i);
    ghost var log := sink.log;
    var here := Approach(a, d, i, s, decs, before);
    if here.Err? {
      assert sink.log[|log|..] == [];
      return here, size;
    }
    var t := here.value;
    var m := a.members[i].stream.value;
    var end := LocateNext(a, d, m.folder, t, decs, before);
    if end.Err? {
      assert sink.log[|log|..] == [];
      return Err(end.error), size;
    }
    var data := t.decoded.bytes[t.offset..end.value];
    var delivered := Deliver(i, data, m.crc, sink);
    if delivered.Err? {
      return Err(delivered.error), size;
    }
    MemberBytesHere(a, d, i, t, end.value);
    Advanced(a, d, i, t, end.value);
    LocatedOk(a.folders[m.folder], t.next, a.limits, t.decoded.bytes, t.offset, end.value);
    MemberAccounted(a, d, t, end.value);
    size := end.value - t.offset;
    r := Ok(t.(offset := end.value, next := t.next + 1));
  }

  lemma NothingStarted(i: nat)
    ensures Started([], i, [])
  {
  }

  /** What a run left in the sink: whole groups of the members before `k`, then at most a started one. */
  ghost predicate Logged(a: Archive, d: FolderDecoder, log: seq<Event>, k: nat)
    requires k <= |a.members| && |a.roots| == |a.folders|
  {
    && AllRead(a, d, k) && GroupsOf(a, d, k) <= log
    && exists data :: Started(log[|GroupsOf(a, d, k)|..], k, data)
  }

  lemma LoggedError(a: Archive, d: FolderDecoder, before: seq<Event>, log: seq<Event>, k: nat, data: seq<byte>)
    requires k <= |a.members| && |a.roots| == |a.folders| && AllRead(a, d, k) && before == GroupsOf(a, d, k)
    requires before <= log && Started(log[|before|..], k, data)
    ensures Logged(a, d, log, k)
  {
  }

  /** The group of a member without a stream. */
  method ExtractEmpty(a: Archive, d: FolderDecoder, i: nat, sink: EntrySink) returns (r: Result<()>)
    requires Validated(a) && i < |a.members| && a.members[i].stream.None?
    modifies sink
    ensures r.Ok? ==> sink.log == old(sink.log) + GroupOf(a, d, i)
    ensures r.Err? ==> old(sink.log) <= sink.log && Started(sink.log[|old(sink.log)|..], i, [])
    ensures sink.Willing() ==> r.Ok?
  {
    var m := a.members[i];
    r := Ok(());
    if m.isEmptyFile && !m.isAnti {
      ghost var log := sink.log;
      r := sink.Accept(Begin(i, 0));
      if r.Err? {
        assert sink.log[|log|..] == [];
        return;
      }
      assert sink.log[|log|..] == [Begin(i, 0)];
      r := sink.Accept(Finish(i));
      assert Group(i, []) == [Begin(i, 0)] + [Finish(i)];
    }
  }

  lemma GroupOfStream(a: Archive, d: FolderDecoder, i: nat)
    requires i < |a.members| && |a.roots| == |a.folders| && a.members[i].stream.Some? && MemberBytes(a, d, i).Ok?
    ensures GroupOf(a, d, i) == Group(i, MemberBytes(a, d, i).value)
  {
    hide MemberBytes, Group;
  }

  /** What member `i` adds to the totals. */
  ghost predicate Adds(a: Archive, d: FolderDecoder, i: nat, size: nat)
    requires i < |a.members| && |a.roots| == |a.folders|
  {
    && (a.members[i].stream.Some? ==> MemberBytes(a, d, i).Ok?)
    && size == if a.members[i].stream.Some? then |MemberBytes(a, d, i).value| else 0
  }

  method ExtractMember(a: Archive, d: FolderDecoder, i: nat, s: State, sink: EntrySink,
                       ghost decs: Option<seq<Decoded>>, ghost before: nat) returns (r: Result<State>, size: nat)
    requires Validated(a) && Monotone(d) && i < |a.members| && StateOk(a, d, i, s)
    requires Accounted(a, d, s) && (decs.Some? ==> Follows(a, d, s, decs.value, before))
    modifies sink
    ensures r.Ok? ==>
              && StateOk(a, d, i + 1, r.value) && Increasing(r.value.decodes) && Accounted(a, d, r.value)
              && sink.log == old(sink.log) + GroupOf(a, d, i) && Adds(a, d, i, size)
    ensures r.Err? ==> old(sink.log) <= sink.log && exists data :: Started(sink.log[|old(sink.log)|..], i, data)
    ensures decs.Some? && sink.Willing() ==> r.Ok?
    ensures decs.Some? && r.Ok? ==> Follows(a, d, r.value, decs.value, before)
  {
    hide Natural, MemberBytes, StateOk, Follows, Group, GroupOf, Started, Accounted;
    if a.members[i].stream.None? {
      var empty := ExtractEmpty(a, d, i, sink);
      SkipMember(a, d, i, s);
      StateIncreasing(a, d, i + 1, s);
      return if empty.Ok? then Ok(s) else Err(empty.error), 0;
    }
    r, size := ExtractStreamed(a, d, i, s, sink, decs, before);
    if r.Ok? {
      GroupOfStream(a, d, i);
      StateIncreasing(a, d, i + 1, r.value);
    }
  }

  lemma RunNext(a: Archive, d: FolderDecoder, i: nat, size: nat)
    requires i < |a.members| && |a.roots| == |a.folders| && AllRead(a, d, i) && Adds(a, d, i, size)
    ensures AllRead(a, d, i + 1) && DeliveredTo(a, d, i + 1) == DeliveredTo(a, d, i) + size
    ensures GroupsOf(a, d, i + 1) == GroupsOf(a, d, i) + GroupOf(a, d, i)
  {
    hide MemberBytes, GroupOf;
  }

  lemma LoggedAll(a: Archive, d: FolderDecoder, k: nat)
    requires k <= |a.members| && |a.roots| == |a.folders| && AllRead(a, d, k)
    ensures Logged(a, d, GroupsOf(a, d, k), k)
  {
    NothingStarted(k);
    hide Started, GroupsOf;
    var log := GroupsOf(a, d, k);
    assert log[|log|..] == [];
  }

  lemma RunStarts(a: Archive, d: FolderDecoder)
    requires Validated(a)
    ensures StateOk(a, d, 0, State(None, Decoded([], false), 0, 0, 0, []))
    ensures Accounted(a, d, State(None, Decoded([], false), 0, 0, 0, []))
    ensures GroupsOf(a, d, 0) == [] && AllRead(a, d, 0) && DeliveredTo(a, d, 0) == 0
  {
    ExtractionStarts(a);
    assert Runs(a, d, State(None, Decoded([], false), 0, 0, 0, []), []);
  }

  /** `extract_entries_to`. The sink sees the members in archive order, each with the bytes it has when opened
      alone, and `Finish` only after those bytes matched their digest, on success and on failure alike; folders
      are decoded in increasing order, so none twice. After a successful verification only a sink can refuse. */
  method ExtractEntries(a: Archive, d: FolderDecoder, sink: EntrySink, ghost decs: Option<seq<Decoded>>,
                        ghost before: nat) returns (r: Result<nat>, ghost k: nat, ghost decodes: seq<nat>)
    requires Validated(a) && Monotone(d) && sink.log == []
    requires decs.Some? ==> AllNeeded(a, d, decs.value, before)
    modifies sink
    ensures k <= |a.members| && Logged(a, d, sink.log, k)
    ensures r.Ok? ==> k == |a.members| && sink.log == GroupsOf(a, d, k) && r.value == DeliveredTo(a, d, k)
    ensures r.Ok? ==> exists all :: AllNeeded(a, d, all, 0)
    ensures Increasing(decodes)
    ensures decs.Some? && sink.Willing() ==> r.Ok?
  {
    RunStarts(a, d);
    hide Natural, StateOk, AllNeeded, GroupsOf, GroupOf, DeliveredTo, AllRead, Adds, Started, Logged, Accounted;
    var s := State(None, Decoded([], false), 0, 0, 0, []);
    var delivered: nat := 0;
    k, decodes := 0, [];
    for i := 0 to |a.members|
      invariant k == i && StateOk(a, d, i, s) && Accounted(a, d, s) && Increasing(s.decodes) && decodes == s.decodes
      invariant sink.log == GroupsOf(a, d, i) && AllRead(a, d, i) && delivered == DeliveredTo(a, d, i)
      invariant decs.Some? ==> Follows(a, d, s, decs.value, before)
    {
      ghost var log := sink.log;
      var t, size := ExtractMember(a, d, i, s, sink, decs, before);
      if t.Err? {
        ghost var data :| Started(sink.log[|log|..], i, data);
        LoggedError(a, d, log, sink.log, i, data);
        return Err(t.error), k, decodes;
      }
      RunNext(a, d, i, size);
      s, delivered := t.value, delivered + size;
      k, decodes := i + 1, s.decodes;
    }
    LoggedAll(a, d, k);
    FinalState(a, d, s);
    RunFinished(a, d, s);
    if s.folder.Some? {
      if s.next != |a.folders[s.folder.value]| {
        return Err(Format), k, decodes;
      }
    }
    r := Ok(delivered);
  }

  /** Into a willing sink it succeeds exactly when every folder with members decodes, in order and within the total
      limit, and all their digests match. */
  method ExtractAll(a: Archive, d: FolderDecoder, sink: EntrySink) returns (r: Result<nat>)
    requires Validated(a) && Monotone(d) && sink.log == []
    modifies sink
    ensures r.Ok? ==> exists all :: AllNeeded(a, d, all, 0)
    ensures sink.Willing() && (exists all :: AllNeeded(a, d, all, 0)) ==> r.Ok?
    ensures r.Ok? ==> sink.log == GroupsOf(a, d, |a.members|) && r.value == DeliveredTo(a, d, |a.members|)
  {
    hide AllNeeded, GroupsOf, DeliveredTo, Natural, Monotone;
    ghost var decs: Option<seq<Decoded>>, k, decodes := None, 0, [];
    if exists all :: AllNeeded(a, d, all, 0) {
      ghost var all :| AllNeeded(a, d, all, 0);
      decs := Some(all);
    }
    r, k, decodes := ExtractEntries(a, d, sink, decs, 0);
  }

  lemma ExtractionStarts(a: Archive)
    requires Validated(a)
    ensures StreamsTail(a.members, 0) == StreamsFrom(a.folders, 0, 0)
  {
    hide StreamsFrom;
    StreamsSplit(a.members, 0);
    assert a.members[..0] == [];
  }

  lemma SkipMember(a: Archive, d: FolderDecoder, i: nat, s: State)
    requires |a.roots| == |a.folders| && i < |a.members| && a.members[i].stream.None? && StateOk(a, d, i, s)
    ensures StateOk(a, d, i + 1, s)
  {
    hide StreamsFrom, FolderState;
    assert StreamsTail(a.members, i) == [] + StreamsTail(a.members, i + 1);
  }

  lemma StateIncreasing(a: Archive, d: FolderDecoder, i: nat, s: State)
    requires |a.roots| == |a.folders| && i <= |a.members| && StateOk(a, d, i, s)
    ensures Increasing(s.decodes)
  {
    hide StreamsFrom, StreamsTail, DecodeFull;
  }

  /** After the last member its folder is finished: the final mapping error cannot occur. */
  lemma FinalState(a: Archive, d: FolderDecoder, s: State)
    requires |a.roots| == |a.folders| && StateOk(a, d, |a.members|, s)
    ensures s.folder.Some? ==> s.folder.value < |a.folders| && s.next == |a.folders[s.folder.value]|
  {
    hide DecodeFull;
  }

  // ---- verification ----

  /** The next substream of a folder's output: where it ends, if it lies inside and has its digest. */
  method VerifyMember(subs: seq<Substream>, j: nat, start: nat, bytes: seq<byte>) returns (r: Result<nat>)
    requires j < |subs| && Known(subs, j) && start == Prefix(subs, j) <= |bytes|
    ensures r.Ok? <==> MemberOk(subs, j, bytes)
    ensures r.Ok? ==> start <= r.value <= |bytes| && MemberEnd(subs, j, start, |bytes|) == Ok(r.value)
  {
    hide Crc, Value, Prefix, Known;
    var end := MemberEnd(subs, j, start, |bytes|);
    if end.Err? {
      return Err(end.error);
    }
    if end.value > |bytes| {
      return Err(Format);
    }
    var data := bytes[start..end.value];
    if subs[j].crc.Some? {
      var crc := ChecksumOf([data]);
      OneChunk(data);
      if Value(crc) != subs[j].crc.value {
        return Err(Error.Checksum);
      }
    }
    r := end;
  }

  /** The members of a folder, taken in order from the streamed entries; the right entry is always there. */
  method VerifyMembers(folders: Folders, f: nat, decoded: Decoded, entries: seq<Mapping>, first: nat)
    returns (r: Result<()>, next: nat)
    requires f < |folders| && first <= |entries| && entries[first..] == StreamsFrom(folders, f, 0)
    ensures r.Ok? <==>
              !decoded.crcMismatch && forall j | 0 <= j < |folders[f]| :: MemberOk(folders[f], j, decoded.bytes)
    ensures r.Ok? ==> next <= |entries| && entries[next..] == StreamsFrom(folders, f + 1, 0)
  {
    hide MemberOk, Prefix, Known, StreamsFrom;
    var subs, size := folders[f], |decoded.bytes|;
    var start: nat := 0;
    next := first;
    PrefixZero(subs);
    for j := 0 to |subs|
      invariant next <= |entries| && entries[next..] == StreamsFrom(folders, f, j)
      invariant start <= size && (j < |subs| ==> Known(subs, j) && start == Prefix(subs, j))
      invariant forall k | 0 <= k < j :: MemberOk(subs, k, decoded.bytes)
    {
      EntryHere(folders, f, j, entries, next);
      if next >= |entries| || entries[next].folder != f || entries[next].substream != j {
        return Err(Format), next;
      }
      next := next + 1;
      var end := VerifyMember(subs, j, start, decoded.bytes);
      if end.Err? {
        return Err(end.error), next;
      }
      PrefixNext(subs, j);
      start := end.value;
    }
    FolderDone(folders, f);
    if decoded.crcMismatch {
      return Err(Error.Checksum), next;
    }
    r := Ok(());
  }

  lemma FolderDone(folders: Folders, f: nat)
    requires f < |folders|
    ensures StreamsFrom(folders, f, |folders[f]|) == StreamsFrom(folders, f + 1, 0)
  {
  }

  lemma PrefixZero(subs: seq<Substream>)
    ensures Known(subs, 0) && Prefix(subs, 0) == 0
  {
  }

  lemma PrefixNext(subs: seq<Substream>, j: nat)
    requires j < |subs| && Known(subs, j)
    ensures subs[j].size.Some? ==> Known(subs, j + 1) && Prefix(subs, j + 1) == Prefix(subs, j) + subs[j].size.value
  {
  }

  lemma OneChunk(data: seq<byte>)
    ensures Concat([data]) == data
  {
    assert [data][..0] == [];
    assert Concat([]) + data == data;
  }

  lemma EntryHere(folders: Folders, f: nat, j: nat, entries: seq<Mapping>, next: nat)
    requires f < |folders| && j < |folders[f]| && next <= |entries| && entries[next..] == StreamsFrom(folders, f, j)
    ensures next < |entries| && entries[next].folder == f && entries[next].substream == j
    ensures entries[next + 1..] == StreamsFrom(folders, f, j + 1)
  {
    assert entries[next..][1..] == entries[next + 1..] && entries[next..][0] == entries[next];
  }

  /** The members that have a stream, in archive order. */
  method StreamedEntries(members: seq<Member>) returns (entries: seq<Mapping>)
    ensures entries == StreamsOf(members)
  {
    entries := [];
    for i := 0 to |members|
      invariant entries == StreamsOf(members[..i])
    {
      assert members[..i + 1][..i] == members[..i];
      if members[i].stream.Some? {
        entries := entries + [members[i].stream.value];
      }
    }
    assert members[..|members|] == members;
  }

  method VerifyFolder(a: Archive, d: FolderDecoder, total: nat, f: nat, entries: seq<Mapping>, first: nat)
    returns (r: Result<Decoded>, next: nat)
    requires |a.roots| == |a.folders| && f < |a.folders|
    requires first <= |entries| && entries[first..] == StreamsFrom(a.folders, f, 0)
    ensures r.Ok? <==> exists dec :: FolderGood(a, d, total, f, dec)
    ensures r.Ok? ==> FolderGood(a, d, total, f, r.value)
    ensures r.Ok? ==> next <= |entries| && entries[next..] == StreamsFrom(a.folders, f + 1, 0)
  {
    hide FolderMaximum, MemberOk, StreamsFrom;
    next := first;
    if total > a.limits.total {
      return Err(Format), next;
    }
    var maximum := FolderDecodeMaximum(a.folders[f], a.roots[f], a.limits, a.limits.total - total);
    if maximum.Err? {
      return Err(maximum.error), next;
    }
    r := d(f, maximum.value);
    if r.Err? || total + |r.value.bytes| > a.limits.total {
      return Err(LimitExceeded), next;
    }
    var members;
    members, next := VerifyMembers(a.folders, f, r.value, entries, first);
    if members.Err? {
      return Err(members.error), next;
    }
    assert FolderGood(a, d, total, f, r.value);
  }

  /** Only one output can be a folder's verified one. */
  lemma GoodIsUnique(a: Archive, d: FolderDecoder, total: nat, f: nat, x: Decoded, y: Decoded)
    requires f < |a.folders| == |a.roots| && FolderGood(a, d, total, f, x) && FolderGood(a, d, total, f, y)
    ensures x == y
  {
    hide FolderMaximum, MemberOk;
  }

  /** Any verified archive starts with what has been verified so far. */
  ghost predicate Agrees(a: Archive, d: FolderDecoder, decs: seq<Decoded>, before: nat)
    requires |decs| <= |a.folders| == |a.roots|
  {
    forall all :: AllVerified(a, d, all, before) ==> decs <= all
  }

  lemma {:induction false} SumPrefix(decs: seq<Decoded>, all: seq<Decoded>, k: nat)
    requires decs <= all && k <= |decs|
    ensures OutputSum(decs, k) == OutputSum(all, k)
  {
    if k > 0 { SumPrefix(decs, all, k - 1); }
  }

  /** What follows the common part is the next folder's verified output. */
  lemma VerifiedAt(a: Archive, d: FolderDecoder, decs: seq<Decoded>, all: seq<Decoded>, before: nat)
    requires |decs| < |a.folders| == |a.roots| && AllVerified(a, d, all, before) && decs <= all
    ensures FolderGood(a, d, before + OutputSum(decs, |decs|), |decs|, all[|decs|])
  {
    hide FolderGood;
    SumPrefix(decs, all, |decs|);
    assert FolderVerified(a, d, all, before, |decs|);
  }

  lemma AgreesNext(a: Archive, d: FolderDecoder, decs: seq<Decoded>, before: nat, dec: Decoded)
    requires |decs| < |a.folders| == |a.roots| && Agrees(a, d, decs, before)
    requires FolderGood(a, d, before + OutputSum(decs, |decs|), |decs|, dec)
    ensures Agrees(a, d, decs + [dec], before)
  {
    hide FolderGood, OutputSum;
    var f := |decs|;
    forall all | AllVerified(a, d, all, before)
      ensures decs + [dec] <= all
    {
      AgreeOne(a, d, decs, all, before, dec);
    }
  }

  lemma AgreeOne(a: Archive, d: FolderDecoder, decs: seq<Decoded>, all: seq<Decoded>, before: nat, dec: Decoded)
    requires |decs| < |a.folders| == |a.roots| && AllVerified(a, d, all, before) && decs <= all
    requires FolderGood(a, d, before + OutputSum(decs, |decs|), |decs|, dec)
    ensures decs + [dec] <= all
  {
    VerifiedAt(a, d, decs, all, before);
    GoodIsUnique(a, d, before + OutputSum(decs, |decs|), |decs|, dec, all[|decs|]);
    hide FolderGood, OutputSum, FolderVerified;
    assert all[..|decs| + 1] == decs + [dec];
  }

  lemma VerifiedNext(a: Archive, d: FolderDecoder, decs: seq<Decoded>, before: nat, dec: Decoded)
    requires |decs| < |a.folders| == |a.roots|
    requires forall g | 0 <= g < |decs| :: FolderVerified(a, d, decs, before, g)
    requires FolderGood(a, d, before + OutputSum(decs, |decs|), |decs|, dec)
    ensures forall g | 0 <= g < |decs| + 1 :: FolderVerified(a, d, decs + [dec], before, g)
    ensures OutputSum(decs + [dec], |decs| + 1) == OutputSum(decs, |decs|) + |dec.bytes|
  {
    hide FolderGood, OutputSum, FolderVerified;
    VerifiedLast(a, d, decs, before, dec);
    forall g | 0 <= g < |decs|
      ensures FolderVerified(a, d, decs + [dec], before, g)
    {
      VerifiedStays(a, d, decs, decs + [dec], before, g);
    }
  }

  lemma VerifiedLast(a: Archive, d: FolderDecoder, decs: seq<Decoded>, before: nat, dec: Decoded)
    requires |decs| < |a.folders| == |a.roots| && FolderGood(a, d, before + OutputSum(decs, |decs|), |decs|, dec)
    ensures FolderVerified(a, d, decs + [dec], before, |decs|)
    ensures OutputSum(decs + [dec], |decs| + 1) == OutputSum(decs, |decs|) + |dec.bytes|
  {
    hide FolderGood, OutputSum;
    var more, n := decs + [dec], |decs|;
    assert more[n] == dec && more[..n] == decs;
    SumPrefix(decs, more, n);
    SumNext(more, n);
  }

  lemma SumNext(decs: seq<Decoded>, k: nat)
    requires k < |decs|
    ensures OutputSum(decs, k + 1) == OutputSum(decs, k) + |decs[k].bytes|
  {
  }

  lemma VerifiedStays(a: Archive, d: FolderDecoder, decs: seq<Decoded>, more: seq<Decoded>, before: nat, g: nat)
    requires g < |decs| <= |more| <= |a.folders| == |a.roots| && decs <= more
    requires FolderVerified(a, d, decs, before, g)
    ensures FolderVerified(a, d, more, before, g)
  {
    hide FolderGood;
    SumPrefix(decs, more, g);
  }

  /** `verify`, when `before` bytes of additional streams have been decoded: it succeeds exactly on archives whose
      folders all decode within the limits with matching digests. */
  method Verify(a: Archive, d: FolderDecoder, before: nat) returns (r: Result<()>, ghost decs: seq<Decoded>)
    requires Validated(a)
    ensures r.Ok? <==> exists all :: AllVerified(a, d, all, before)
    ensures r.Ok? ==> AllVerified(a, d, decs, before)
  {
    hide FolderGood, Natural, StreamsFrom, FolderVerified;
    var entries := StreamedEntries(a.members);
    var total: nat, next: nat := before, 0;
    decs := [];
    NaturalStart(a, entries);
    for f := 0 to |a.folders|
      invariant |decs| == f && total == before + OutputSum(decs, f)
      invariant next <= |entries| && entries[next..] == StreamsFrom(a.folders, f, 0)
      invariant Agrees(a, d, decs, before) && forall g | 0 <= g < f :: FolderVerified(a, d, decs, before, g)
    {
      var dec;
      dec, next := VerifyFolder(a, d, total, f, entries, next);
      if dec.Err? {
        NoneVerified(a, d, decs, before, total);
        return Err(dec.error), decs;
      }
      AgreesNext(a, d, decs, before, dec.value);
      VerifiedNext(a, d, decs, before, dec.value);
      decs := decs + [dec.value];
      total := total + |dec.value.bytes|;
    }
    assert AllVerified(a, d, decs, before);
    NothingLeft(a.folders);
    if next < |entries| {
      return Err(Format), decs;
    }
    r := Ok(());
  }

  lemma NaturalStart(a: Archive, entries: seq<Mapping>)
    requires Validated(a) && entries == StreamsOf(a.members)
    ensures entries[0..] == StreamsFrom(a.folders, 0, 0)
  {
    hide StreamsFrom;
  }

  lemma NothingLeft(folders: Folders)
    ensures StreamsFrom(folders, |folders|, 0) == []
  {
  }

  lemma NoneVerified(a: Archive, d: FolderDecoder, decs: seq<Decoded>, before: nat, total: nat)
    requires |decs| < |a.folders| == |a.roots| && Agrees(a, d, decs, before)
    requires total == before + OutputSum(decs, |decs|)
    requires !exists dec :: FolderGood(a, d, total, |decs|, dec)
    ensures !exists all :: AllVerified(a, d, all, before)
  {
    hide FolderGood, OutputSum, FolderVerified;
    forall all
      ensures !AllVerified(a, d, all, before)
    {
      if AllVerified(a, d, all, before) {
        VerifiedAt(a, d, decs, all, before);
      }
    }
  }

  /** A verified archive extracts completely into any willing sink, an unknown last size included. */
  method VerifyThenExtract(a: Archive, d: FolderDecoder, sink: EntrySink, before: nat)
    returns (verified: Result<()>, extracted: Result<nat>)
    requires Validated(a) && Monotone(d) && sink.log == []
    modifies sink
    ensures verified.Ok? <==> exists all :: AllVerified(a, d, all, before)
    ensures verified.Ok? && sink.Willing() ==> extracted.Ok? && sink.log == GroupsOf(a, d, |a.members|)
  {
    ghost var decs, k, decodes;
    verified, decs := Verify(a, d, before);
    if verified.Ok? {
      VerifiedNeeded(a, d, decs, before);
    }
    extracted, k, decodes := ExtractEntries(a, d, sink, if verified.Ok? then Some(decs) else None, before);
  }
}
