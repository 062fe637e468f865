/** The fixed trees, and dynamic trees with run-length coded lengths (sections 3.2.6 and 3.2.7 of RFC 1951). */
module Deflate64Trees {
  import opened Prelude
  import opened BitStrings
  import opened Deflate64Bits
  import opened Deflate64Huffman
  import opened Deflate64Blocks

  // ---- fixed trees ----

  function Repeat(v: nat, n: nat): (s: seq<nat>)
    ensures |s| == n && forall i | 0 <= i < n :: s[i] == v
  {
    seq(n, i => v)
  }

  const FIXED_LITERALS: Lengths := Repeat(8, 144) + Repeat(9, 112) + Repeat(7, 24) + Repeat(8, 8)
  const FIXED_DISTANCES: Lengths := Repeat(5, 32)

  lemma {:induction false} CountRepeat(ls: Lengths, v: nat, n: nat, l: nat)
    ensures Count(ls + Repeat(v, n), l) == Count(ls, l) + if v == l then n else 0
  {
    if n == 0 {
      assert ls + Repeat(v, n) == ls;
    } else {
      CountRepeat(ls, v, n - 1, l);
      var s := ls + Repeat(v, n);
      assert s[..|s| - 1] == ls + Repeat(v, n - 1);
    }
  }

  lemma FixedCounts(l: nat)
    ensures Count(FIXED_LITERALS, l) == if l == 7 then 24 else if l == 8 then 152 else if l == 9 then 112 else 0
    ensures Count(FIXED_DISTANCES, l) == if l == 5 then 32 else 0
  {
    hide Repeat;
    var a := Repeat(8, 144);
    assert [] + a == a && [] + FIXED_DISTANCES == FIXED_DISTANCES;
    CountRepeat([], 8, 144, l);
    CountRepeat(a, 9, 112, l);
    CountRepeat(a + Repeat(9, 112), 7, 24, l);
    CountRepeat(a + Repeat(9, 112) + Repeat(7, 24), 8, 8, l);
    CountRepeat([], 5, 32, l);
  }

  lemma {:induction false} FixedFirst(l: nat)
    requires 1 <= l <= MAX_CODE_BITS
    ensures First(FIXED_LITERALS, l) ==
            if l <= 7 then 0 else if l == 8 then 48 else if l == 9 then 400 else Pow2(l)
    ensures First(FIXED_DISTANCES, l) == if l <= 5 then 0 else Pow2(l)
  {
    hide Count, FIXED_LITERALS, FIXED_DISTANCES;
    if l > 1 {
      FixedFirst(l - 1);
      FixedCounts(l - 1);
      assert Pow2(6) == 64 && Pow2(10) == 1024;
    }
  }

  lemma FixedSubscribed(l: nat)
    requires 1 <= l <= MAX_CODE_BITS
    ensures First(FIXED_LITERALS, l) + Count(FIXED_LITERALS, l) <= Pow2(l)
    ensures First(FIXED_DISTANCES, l) + Count(FIXED_DISTANCES, l) <= Pow2(l)
  {
    hide Count, First, FIXED_LITERALS, FIXED_DISTANCES;
    FixedFirst(l);
    FixedCounts(l);
    assert Pow2(5) == 32 && Pow2(7) == 128 && Pow2(8) == 256 && Pow2(9) == 512;
  }

  /** Counting in the front of the fixed lengths. */
  lemma {:induction false} FrontCount(s: nat, l: nat)
    requires s <= 288
    ensures Count(FIXED_LITERALS[..s], l) ==
            if l == 8 then Min(s, 144) + Max(s - 280, 0)
            else if l == 9 then Max(Min(s, 256) - 144, 0)
            else if l == 7 then Max(Min(s, 280) - 256, 0)
            else 0
  {
    if s > 0 {
      FrontCount(s - 1, l);
      assert FIXED_LITERALS[..s][..s - 1] == FIXED_LITERALS[..s - 1];
    }
  }

  lemma {:induction false} FrontDistances(s: nat)
    requires s <= 32
    ensures Count(FIXED_DISTANCES[..s], 5) == s
  {
    if s > 0 {
      FrontDistances(s - 1);
      assert FIXED_DISTANCES[..s][..s - 1] == FIXED_DISTANCES[..s - 1];
    }
  }

  /** The fixed codes are those of the table in section 3.2.6 of RFC 1951: 00110000 to 10111111, 110010000 to
      111111111, 0000000 to 0010111 and 11000000 to 11000111; distances are five bits each. */
  lemma FixedCodes(s: nat)
    ensures s < 288 ==> |FIXED_LITERALS| == 288 && 7 <= FIXED_LITERALS[s] <= 9
    ensures s < 288 ==>
              (FIXED_LITERALS[s], Code(FIXED_LITERALS, s)) ==
              if s < 144 then (8, 0x30 + s) else if s < 256 then (9, 0x190 + s - 144)
              else if s < 280 then (7, s - 256) else (8, 0xc0 + s - 280)
    ensures s < 32 ==> |FIXED_DISTANCES| == 32 && FIXED_DISTANCES[s] == 5 && Code(FIXED_DISTANCES, s) == s
  {
    if s < 288 {
      FrontCount(s, FIXED_LITERALS[s]);
      FixedFirst(FIXED_LITERALS[s]);
    }
    if s < 32 {
      FrontDistances(s);
      FixedFirst(5);
    }
  }

  lemma FixedShape()
    ensures |FIXED_LITERALS| == 288 && |FIXED_DISTANCES| == 32 && FIXED_LITERALS[END_OF_BLOCK] == 7
    ensures forall s | 0 <= s < 288 :: FIXED_LITERALS[s] <= MAX_CODE_BITS
    ensures forall s | 0 <= s < 32 :: FIXED_DISTANCES[s] <= MAX_CODE_BITS
  {
  }

  /** The fixed trees are complete, so the program's `?` on them never fails. */
  lemma FixedTreesOk()
    ensures TreesOk(FIXED_LITERALS, FIXED_DISTANCES) && HasCode(FIXED_LITERALS, END_OF_BLOCK)
    ensures Accepted(FIXED_LITERALS, false) && Accepted(FIXED_DISTANCES, false)
  {
    hide Count, First, Index, Pow2, FIXED_LITERALS, FIXED_DISTANCES;
    FixedShape();
    FixedNonEmpty();
    forall l | 1 <= l <= MAX_CODE_BITS
      ensures First(FIXED_LITERALS, l) + Count(FIXED_LITERALS, l) <= Pow2(l)
      ensures First(FIXED_DISTANCES, l) + Count(FIXED_DISTANCES, l) <= Pow2(l)
    {
      FixedSubscribed(l);
    }
  }

  lemma FixedNonEmpty()
    ensures Index(FIXED_LITERALS, MAX_CODE_BITS + 1) > 0 && Index(FIXED_DISTANCES, MAX_CODE_BITS + 1) > 0
  {
    hide Count, FIXED_LITERALS, FIXED_DISTANCES, Index;
    FixedCounts(7);
    FixedCounts(5);
    IndexNext(FIXED_LITERALS, 7);
    IndexNext(FIXED_DISTANCES, 5);
    IndexGrows(FIXED_LITERALS, 8, MAX_CODE_BITS + 1);
    IndexGrows(FIXED_DISTANCES, 6, MAX_CODE_BITS + 1);
  }

  // ---- dynamic trees ----

  const CODE_LENGTH_ORDER: seq<nat> := [16, 17, 18, 0, 8, 7, 9, 6, 10, 5, 11, 4, 12, 3, 13, 2, 14, 1, 15]

  lemma OrderIsPermutation()
    ensures |CODE_LENGTH_ORDER| == 19 && NoRepeats(CODE_LENGTH_ORDER)
    ensures forall i | 0 <= i < 19 :: CODE_LENGTH_ORDER[i] < 19
    ensures forall v | 0 <= v < 19 :: v in CODE_LENGTH_ORDER
  {
  }

  /** The order follows a rule: the three repeat codes, zero, and then the lengths by how far they are from 8, on both
      sides in turn. */
  lemma OrderRule(k: nat)
    requires k < 19
    ensures CODE_LENGTH_ORDER[k] ==
            if k < 3 then 16 + k else if k == 3 then 0 else if k % 2 == 0 then 6 + k / 2 else 9 - k / 2
  {
  }

  /** Three bits per entry, in the permuted order; entries not sent stay zero. */
  function ReadCodeLengths(bits: Bits, k: nat, n: nat, cl: Lengths): (x: Result<(Lengths, Bits)>)
    requires k <= n <= 19 && |cl| == 19
    ensures x.Ok? ==> |x.value.0| == 19 && |x.value.1| <= |bits|
    decreases n - k
  {
    if k == n then Ok((cl, bits))
    else
      OrderIsPermutation();
      var (v, rest) :- TakeBits(bits, 3);
      ReadCodeLengths(rest, k + 1, n, cl[CODE_LENGTH_ORDER[k] := v])
  }

  /** A code-length symbol with its extra bits. */
  datatype Run = One(length: nat) | Again(extra: nat) | Zeros(extra: nat) | ManyZeros(extra: nat)

  function ReadRun(cl: Lengths, bits: Bits): (x: Result<(Run, Bits)>)
    ensures x.Ok? ==> |x.value.1| < |bits|
  {
    hide Decode, TakeBits;
    var (symbol, n) :- Decode(cl, bits);
    if symbol <= 15 then Ok((One(symbol), n))
    else if symbol == 16 then
      var (extra, rest) :- TakeBits(n, 2);
      Ok((Again(extra), rest))
    else if symbol == 17 then
      var (extra, rest) :- TakeBits(n, 3);
      Ok((Zeros(extra), rest))
    else if symbol == 18 then
      var (extra, rest) :- TakeBits(n, 7);
      Ok((ManyZeros(extra), rest))
    else Err(Format)
  }

  /** The lengths so far with a run appended; only a repeat needs a previous length. */
  function Grow(acc: Lengths, run: Run): (r: Lengths)
    requires run.Again? ==> acc != []
    ensures |r| > |acc|
  {
    match run
    case One(length) => acc + [length]
    case Again(extra) => acc + Repeat(acc[|acc| - 1], extra + 3)
    case Zeros(extra) => acc + Repeat(0, extra + 3)
    case ManyZeros(extra) => acc + Repeat(0, extra + 11)
  }

  function ReadLengths(cl: Lengths, bits: Bits, total: nat, acc: Lengths): (x: Result<(Lengths, Bits)>)
    requires |acc| <= total
    ensures x.Ok? ==> |x.value.0| == total && |x.value.1| <= |bits|
    decreases |bits|
  {
    hide ReadRun, Grow;
    if |acc| == total then Ok((acc, bits))
    else
      var (run, n) :- ReadRun(cl, bits);
      if run.Again? && acc == [] then Err(Format)
      else if |Grow(acc, run)| > total then Err(Format)
      else ReadLengths(cl, n, total, Grow(acc, run))
  }

  /** `dynamic_trees`. */
  function DynamicTrees(bits: Bits): (x: Result<((Lengths, Lengths), Bits)>)
    ensures x.Ok? ==> |x.value.1| <= |bits|
    ensures x.Ok? ==> TreesOk(x.value.0.0, x.value.0.1) && HasCode(x.value.0.0, END_OF_BLOCK)
  {
    hide TakeBits, ReadCodeLengths, ReadLengths, TreeOk;
    var (a, n0) :- TakeBits(bits, 5);
    var (b, n1) :- TakeBits(n0, 5);
    var (c, n2) :- TakeBits(n1, 4);
    var literalCount, distanceCount, n := a + 257, b + 1, c + 4;
    if literalCount > 286 || distanceCount > 32 || n > 19 then Err(Format)
    else
      var (cl, n3) :- ReadCodeLengths(n2, 0, n, Repeat(0, 19));
      if !Accepted(cl, false) then Err(Format)
      else
        var (all, n4) :- ReadLengths(cl, n3, literalCount + distanceCount, []);
        var trees :- Split(all, literalCount);
        Ok((trees, n4))
  }

  function Split(all: Lengths, literalCount: nat): (x: Result<(Lengths, Lengths)>)
    requires 257 <= literalCount <= |all| <= literalCount + 32 && literalCount <= 286
    ensures x.Ok? ==> TreesOk(x.value.0, x.value.1) && HasCode(x.value.0, END_OF_BLOCK)
  {
    if all[END_OF_BLOCK] == 0 then Err(Format)
    else if !Accepted(all[..literalCount], false) || !Accepted(all[literalCount..], true) then Err(Format)
    else Ok((all[..literalCount], all[literalCount..]))
  }

  // ---- writing dynamic headers ----

  /** The trees, the `n` code-length codes sent, and the runs that spell both length tables out. */
  datatype Header = Header(literals: Lengths, distances: Lengths, n: nat, codeLengths: Lengths, runs: seq<Run>)

  function RunSymbol(run: Run): nat {
    match run
    case One(length) => length
    case Again(_) => 16
    case Zeros(_) => 17
    case ManyZeros(_) => 18
  }

  predicate RunOk(cl: Lengths, run: Run) {
    && HasCode(cl, RunSymbol(run))
    && match run
       case One(length) => length <= 15
       case Again(extra) => extra < 4
       case Zeros(extra) => extra < 8
       case ManyZeros(extra) => extra < 128
  }

  function RunBits(cl: Lengths, run: Run): (bits: Bits)
    requires RunOk(cl, run)
  {
    match run
    case One(length) => CodeBits(cl, length)
    case Again(extra) => CodeBits(cl, 16) + Low(extra, 2)
    case Zeros(extra) => CodeBits(cl, 17) + Low(extra, 3)
    case ManyZeros(extra) => CodeBits(cl, 18) + Low(extra, 7)
  }

  predicate RunsOk(cl: Lengths, acc: Lengths, runs: seq<Run>)
    decreases |runs|
  {
    runs == [] ||
    (RunOk(cl, runs[0]) && (runs[0].Again? ==> acc != []) && RunsOk(cl, Grow(acc, runs[0]), runs[1..]))
  }

  function Grown(cl: Lengths, acc: Lengths, runs: seq<Run>): (all: Lengths)
    requires RunsOk(cl, acc, runs)
    ensures |all| >= |acc| + |runs|
    decreases |runs|
  {
    if runs == [] then acc else Grown(cl, Grow(acc, runs[0]), runs[1..])
  }

  function RunsBits(cl: Lengths, acc: Lengths, runs: seq<Run>): Bits
    requires RunsOk(cl, acc, runs)
    decreases |runs|
  {
    if runs == [] then [] else RunBits(cl, runs[0]) + RunsBits(cl, Grow(acc, runs[0]), runs[1..])
  }

  lemma RunInverts(cl: Lengths, run: Run, more: Bits)
    requires TreeOk(cl) && RunOk(cl, run)
    ensures ReadRun(cl, RunBits(cl, run) + more) == Ok((run, more))
  {
    hide Decode, TakeBits, CodeBits, TreeOk, Low;
    SmallExtras();
    var s := RunSymbol(run);
    var width := match run case One(_) => 0 case Again(_) => 2 case Zeros(_) => 3 case ManyZeros(_) => 7;
    if run.One? {
      DecodeInverts(cl, s, more);
    } else {
      DecodeInverts(cl, s, Low(run.extra, width) + more);
      TakeInverts(run.extra, width, more);
      assert RunBits(cl, run) + more == CodeBits(cl, s) + (Low(run.extra, width) + more);
    }
  }

  lemma SmallExtras()
    ensures Pow2(2) == 4 && Pow2(3) == 8 && Pow2(4) == 16 && Pow2(5) == 32 && Pow2(7) == 128
  {
  }

  lemma {:induction false} LengthsInvert(cl: Lengths, acc: Lengths, runs: seq<Run>, more: Bits)
    requires TreeOk(cl) && RunsOk(cl, acc, runs)
    ensures var all := Grown(cl, acc, runs);
            ReadLengths(cl, RunsBits(cl, acc, runs) + more, |all|, acc) == Ok((all, more))
    decreases |runs|
  {
    hide ReadRun, Grow, RunOk, TreeOk, RunBits;
    if runs == [] {
      assert [] + more == more;
    } else {
      var tail := RunsBits(cl, Grow(acc, runs[0]), runs[1..]) + more;
      assert RunsBits(cl, acc, runs) + more == RunBits(cl, runs[0]) + tail;
      RunInverts(cl, runs[0], tail);
      LengthsInvert(cl, Grow(acc, runs[0]), runs[1..], more);
    }
  }

  predicate CodeLengthsOk(cl: Lengths, n: nat) {
    && n <= 19 && |cl| == 19
    && (forall v | 0 <= v < 19 :: cl[v] < 8)
    && |CODE_LENGTH_ORDER| == 19
    && forall i | n <= i < 19 :: CODE_LENGTH_ORDER[i] < 19 && cl[CODE_LENGTH_ORDER[i]] == 0
  }

  function CodeLengthBits(cl: Lengths, k: nat, n: nat): Bits
    requires |cl| == 19 && k <= n <= 19
    decreases n - k
  {
    if k == n then []
    else
      OrderIsPermutation();
      Low(cl[CODE_LENGTH_ORDER[k]], 3) + CodeLengthBits(cl, k + 1, n)
  }

  /** The first `k` entries, in the permuted order, as in `cl`; the others still zero. */
  ghost predicate Filled(partial: Lengths, cl: Lengths, k: nat)
    requires |partial| == 19 && |cl| == 19 && k <= 19
  {
    OrderIsPermutation();
    && (forall i | 0 <= i < k :: partial[CODE_LENGTH_ORDER[i]] == cl[CODE_LENGTH_ORDER[i]])
    && (forall i | k <= i < 19 :: partial[CODE_LENGTH_ORDER[i]] == 0)
  }

  lemma {:induction false} CodeLengthsInvert(cl: Lengths, n: nat, k: nat, partial: Lengths, more: Bits)
    requires CodeLengthsOk(cl, n) && k <= n && |partial| == 19 && Filled(partial, cl, k)
    ensures ReadCodeLengths(CodeLengthBits(cl, k, n) + more, k, n, partial) == Ok((cl, more))
    decreases n - k
  {
    hide TakeBits, Low, CODE_LENGTH_ORDER;
    OrderIsPermutation();
    if k == n {
      assert [] + more == more;
      forall v | 0 <= v < 19
        ensures partial[v] == cl[v]
      {
        assert v in CODE_LENGTH_ORDER;
        var i :| 0 <= i < 19 && CODE_LENGTH_ORDER[i] == v;
      }
      assert partial == cl;
    } else {
      SmallExtras();
      var v := CODE_LENGTH_ORDER[k];
      var tail := CodeLengthBits(cl, k + 1, n) + more;
      assert CodeLengthBits(cl, k, n) + more == Low(cl[v], 3) + tail;
      TakeInverts(cl[v], 3, tail);
      CodeLengthsInvert(cl, n, k + 1, partial[v := cl[v]], more);
    }
  }

  predicate HeaderOk(h: Header) {
    && 257 <= |h.literals| <= 286 && 1 <= |h.distances| <= 32
    && 4 <= h.n <= 19 && |h.codeLengths| == 19
    && CodeLengthsOk(h.codeLengths, h.n) && Accepted(h.codeLengths, false)
    && RunsOk(h.codeLengths, [], h.runs) && Grown(h.codeLengths, [], h.runs) == h.literals + h.distances
    && h.literals[END_OF_BLOCK] != 0
    && Accepted(h.literals, false) && Accepted(h.distances, true)
  }

  function HeaderBits(h: Header): Bits
    requires HeaderOk(h)
  {
    Low(|h.literals| - 257, 5) + (Low(|h.distances| - 1, 5) + (Low(h.n - 4, 4)
    + (CodeLengthBits(h.codeLengths, 0, h.n) + RunsBits(h.codeLengths, [], h.runs))))
  }

  lemma Prepend4(a: Bits, b: Bits, c: Bits, d: Bits, e: Bits, more: Bits)
    ensures a + (b + (c + (d + e))) + more == a + (b + (c + (d + (e + more))))
  {
  }

  /** Any trees, spelled out by any runs and any code-length tree, are read back. */
  lemma DynamicInverts(h: Header, more: Bits)
    requires HeaderOk(h)
    ensures DynamicTrees(HeaderBits(h) + more) == Ok(((h.literals, h.distances), more))
  {
    hide TakeBits, ReadCodeLengths, ReadLengths, TreeOk, Low, CodeLengthBits, RunsBits, RunsOk, Grown, CodeLengthsOk;
    SmallExtras();
    var tail4 := RunsBits(h.codeLengths, [], h.runs) + more;
    var tail3 := CodeLengthBits(h.codeLengths, 0, h.n) + tail4;
    var tail2 := Low(h.n - 4, 4) + tail3;
    var tail1 := Low(|h.distances| - 1, 5) + tail2;
    Prepend4(Low(|h.literals| - 257, 5), Low(|h.distances| - 1, 5), Low(h.n - 4, 4),
             CodeLengthBits(h.codeLengths, 0, h.n), RunsBits(h.codeLengths, [], h.runs), more);
    TakeInverts(|h.literals| - 257, 5, tail1);
    TakeInverts(|h.distances| - 1, 5, tail2);
    TakeInverts(h.n - 4, 4, tail3);
    NothingFilled(h.codeLengths);
    CodeLengthsInvert(h.codeLengths, h.n, 0, Repeat(0, 19), tail4);
    LengthsInvert(h.codeLengths, [], h.runs, more);
    var all := h.literals + h.distances;
    assert all[..|h.literals|] == h.literals && all[|h.literals|..] == h.distances;
  }

  lemma NothingFilled(cl: Lengths)
    requires |cl| == 19
    ensures Filled(Repeat(0, 19), cl, 0)
  {
    OrderIsPermutation();
  }
}
