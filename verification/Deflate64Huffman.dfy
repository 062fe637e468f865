/** Canonical Huffman trees (section 3.2.2 of RFC 1951), and the tables that decode them. */
module Deflate64Huffman {
  import opened Prelude
  import opened BitStrings
  import opened Deflate64Bits

  const MAX_CODE_BITS: nat := 15
  const MAX_SYMBOLS: nat := 320

  /** A tree is given by the code length of each symbol; zero means that the symbol has no code. */
  type Lengths = seq<nat>

  function Count(ls: Lengths, l: nat): (n: nat)
    ensures n <= |ls|
  {
    if ls == [] then 0
    else Count(ls[..|ls| - 1], l) + if ls[|ls| - 1] == l then 1 else 0
  }

  /** The smallest code of length `l`. */
  function First(ls: Lengths, l: nat): nat
    requires l >= 1
  {
    if l == 1 then 0 else 2 * (First(ls, l - 1) + Count(ls, l - 1))
  }

  /** How many symbols have codes shorter than `l`. */
  function Index(ls: Lengths, l: nat): nat
    requires l >= 1
  {
    if l == 1 then 0 else Index(ls, l - 1) + Count(ls, l - 1)
  }

  /** Not oversubscribed: the codes of every length fit in that many bits. */
  predicate Subscribed(ls: Lengths, upTo: nat) {
    forall l | 1 <= l <= upTo :: First(ls, l) + Count(ls, l) <= Pow2(l)
  }

  predicate TreeOk(ls: Lengths) {
    && |ls| <= MAX_SYMBOLS
    && (forall s | 0 <= s < |ls| :: ls[s] <= MAX_CODE_BITS)
    && Subscribed(ls, MAX_CODE_BITS)
  }

  /** The canonical code of a symbol: codes of one length are consecutive, in symbol order. */
  function Code(ls: Lengths, s: nat): nat
    requires s < |ls| && ls[s] >= 1
  {
    First(ls, ls[s]) + Count(ls[..s], ls[s])
  }

  /** The `n` low bits of a code, the most significant first. */
  function CodeLow(c: nat, n: nat): (bits: Bits)
    ensures |bits| == n
    decreases n
  {
    if n == 0 then [] else [c / Pow2(n - 1) % 2] + CodeLow(c, n - 1)
  }

  function CodeBits(ls: Lengths, s: nat): Bits
    requires s < |ls| && ls[s] >= 1
  {
    CodeLow(Code(ls, s), ls[s])
  }

  /** The `k`-th symbol with a code of length `l`. */
  function Nth(ls: Lengths, l: nat, k: nat): (s: nat)
    requires k < Count(ls, l)
    ensures s < |ls| && ls[s] == l && Count(ls[..s], l) == k
  {
    var init := ls[..|ls| - 1];
    if k == Count(init, l) then |ls| - 1
    else
      assert forall i | 0 <= i <= |init| :: ls[..i] == init[..i];
      Nth(init, l, k)
  }

  lemma {:induction false} CountBefore(ls: Lengths, s: nat)
    requires s < |ls|
    ensures Count(ls[..s], ls[s]) < Count(ls, ls[s])
    decreases |ls|
  {
    var init := ls[..|ls| - 1];
    if s < |ls| - 1 {
      assert init[..s] == ls[..s];
      CountBefore(init, s);
    }
  }

  /** Ranks tell the symbols of one length apart. */
  lemma {:induction false} RankGrows(ls: Lengths, s: nat, t: nat)
    requires s < t < |ls| && ls[s] == ls[t]
    ensures Count(ls[..s], ls[s]) < Count(ls[..t], ls[t])
  {
    CountBefore(ls[..t], s);
    assert ls[..t][..s] == ls[..s];
  }

  lemma NthOfRank(ls: Lengths, s: nat)
    requires s < |ls|
    ensures Count(ls[..s], ls[s]) < Count(ls, ls[s])
    ensures Nth(ls, ls[s], Count(ls[..s], ls[s])) == s
  {
    CountBefore(ls, s);
    var n := Nth(ls, ls[s], Count(ls[..s], ls[s]));
    if n < s {
      RankGrows(ls, n, s);
    } else if s < n {
      RankGrows(ls, s, n);
    }
  }

  // ---- decoding ----

  /** The loop of `Huffman::decode`, when `l - 1` bits have formed `code`. */
  function DecodeFrom(ls: Lengths, l: nat, code: nat, bits: Bits): (x: Result<(nat, Bits)>)
    requires 1 <= l <= MAX_CODE_BITS + 1 && First(ls, l) <= 2 * code
    ensures x.Ok? ==> |x.value.1| < |bits| && x.value.0 < |ls|
    decreases MAX_CODE_BITS + 1 - l
  {
    if l > MAX_CODE_BITS || bits == [] then Err(Format)
    else
      var c: nat := 2 * code + bits[0];
      if c < First(ls, l) + Count(ls, l) then Ok((Nth(ls, l, c - First(ls, l)), bits[1..]))
      else DecodeFrom(ls, l + 1, c, bits[1..])
  }

  function Decode(ls: Lengths, bits: Bits): (x: Result<(nat, Bits)>)
    ensures x.Ok? ==> |x.value.1| < |bits| && x.value.0 < |ls|
  {
    DecodeFrom(ls, 1, 0, bits)
  }

  /** Shorter codes come first: the leading bits of a longer code are beyond all codes of that length. */
  lemma {:induction false} FirstGrows(ls: Lengths, j: nat, l: nat)
    requires 1 <= j < l
    ensures (First(ls, j) + Count(ls, j)) * Pow2(l - j) <= First(ls, l)
    decreases l - j
  {
    if j + 1 < l {
      FirstGrows(ls, j + 1, l);
      Doubled(First(ls, j) + Count(ls, j), Count(ls, j + 1), Pow2(l - j - 1));
    }
  }

  lemma Doubled(f: nat, n: nat, p: nat)
    ensures f * (2 * p) <= (2 * f + n) * p
  {
    assert (2 * f + n) * p == f * (2 * p) + n * p;
  }

  lemma Leading(c: nat, p: nat, bound: nat)
    requires p >= 1 && bound * p <= c
    ensures bound <= c / p
  {
    if c / p < bound {
      MulAtMost(c / p + 1, bound, p);
    }
  }

  /** The next bit of a code, and what remains of it. */
  lemma CodeStep(code: nat, n: nat, more: Bits)
    requires n >= 1
    ensures Pow2(n) == 2 * Pow2(n - 1)
    ensures var bits := CodeLow(code, n) + more;
            && bits[0] == code / Pow2(n - 1) % 2 && bits[1..] == CodeLow(code, n - 1) + more
            && code / Pow2(n - 1) == 2 * (code / Pow2(n)) + bits[0]
  {
    QuotientHalves(code, Pow2(n - 1));
  }

  /** The last bit of a code completes the rank of its symbol. */
  lemma CodeEnds(ls: Lengths, s: nat, more: Bits)
    requires s < |ls| && 1 <= ls[s] <= MAX_CODE_BITS && First(ls, ls[s]) <= 2 * (Code(ls, s) / Pow2(1))
    ensures DecodeFrom(ls, ls[s], Code(ls, s) / Pow2(1), CodeLow(Code(ls, s), 1) + more) == Ok((s, more))
  {
    CodeStep(Code(ls, s), 1, more);
    assert CodeLow(Code(ls, s), 0) + more == more && Code(ls, s) / Pow2(0) == Code(ls, s);
    NthOfRank(ls, s);
    hide First, Count, Pow2, CodeLow;
  }

  /** Before its last bit a code is beyond all codes of the length reached. */
  lemma CodeContinues(ls: Lengths, s: nat, n: nat)
    requires s < |ls| && 1 < n <= ls[s]
    ensures First(ls, ls[s] - n + 1) + Count(ls, ls[s] - n + 1) <= Code(ls, s) / Pow2(n - 1)
    ensures First(ls, ls[s] - n + 2) <= 2 * (Code(ls, s) / Pow2(n - 1))
  {
    hide Pow2;
    var l := ls[s] - n + 1;
    FirstNext(ls, l);
    FirstGrows(ls, l, ls[s]);
    NextPower(n - 1);
    Leading(Code(ls, s), Pow2(n - 1), First(ls, l) + Count(ls, l));
  }

  /** The decoder follows a code down to its last bit and stops exactly there. */
  lemma {:induction false} DecodeFollows(ls: Lengths, s: nat, n: nat, more: Bits)
    requires s < |ls| && 1 <= n <= ls[s] <= MAX_CODE_BITS
    requires First(ls, ls[s] - n + 1) <= 2 * (Code(ls, s) / Pow2(n))
    ensures DecodeFrom(ls, ls[s] - n + 1, Code(ls, s) / Pow2(n), CodeLow(Code(ls, s), n) + more) == Ok((s, more))
    decreases n
  {
    hide First, Count, Pow2, CodeLow, Code, Nth;
    if n == 1 {
      CodeEnds(ls, s, more);
    } else {
      CodeStep(Code(ls, s), n, more);
      CodeContinues(ls, s, n);
      DecodeFollows(ls, s, n - 1, more);
    }
  }

  lemma NextPower(n: nat)
    ensures n > 0 ==> Pow2(n) == 2 * Pow2(n - 1)
    ensures Pow2(0) == 1
  {
  }

  lemma FirstNext(ls: Lengths, l: nat)
    requires l >= 1
    ensures First(ls, l + 1) == 2 * (First(ls, l) + Count(ls, l))
  {
  }

  /** The code of a symbol decodes to that symbol, consuming exactly its bits. */
  lemma DecodeInverts(ls: Lengths, s: nat, more: Bits)
    requires TreeOk(ls) && s < |ls| && ls[s] >= 1
    ensures Decode(ls, CodeBits(ls, s) + more) == Ok((s, more))
  {
    var l := ls[s];
    CountBefore(ls, s);
    assert Code(ls, s) < First(ls, l) + Count(ls, l) <= Pow2(l);
    QuotientIs(Code(ls, s), Pow2(l), 0, Code(ls, s));
    assert First(ls, 1) == 0;
    hide First, Count, DecodeFrom, CodeLow, Code;
    DecodeFollows(ls, s, l, more);
  }

  lemma {:induction false} DecodedFrom(ls: Lengths, l: nat, code: nat, bits: Bits)
    requires 1 <= l <= MAX_CODE_BITS + 1 && First(ls, l) <= 2 * code && DecodeFrom(ls, l, code, bits).Ok?
    ensures var (s, rest) := DecodeFrom(ls, l, code, bits).value;
            && l <= ls[s] <= MAX_CODE_BITS
            && code == Code(ls, s) / Pow2(ls[s] - l + 1)
            && bits == CodeLow(Code(ls, s), ls[s] - l + 1) + rest
    decreases MAX_CODE_BITS + 1 - l
  {
    hide First, Count, Pow2;
    var c: nat := 2 * code + bits[0];
    var (s, rest) := DecodeFrom(ls, l, code, bits).value;
    if c < First(ls, l) + Count(ls, l) {
      NextPower(1);
      assert Code(ls, s) == c;
      assert CodeLow(c, 1) == [c / Pow2(0) % 2] + CodeLow(c, 0);
    } else {
      hide Code, CodeLow;
      FirstNext(ls, l);
      DecodedFrom(ls, l + 1, c, bits[1..]);
      CodeStep(Code(ls, s), ls[s] - l + 1, rest);
      assert bits == [bits[0]] + bits[1..];
    }
  }

  /** A decoded symbol is the one whose canonical code the bits start with, and nothing else decodes. */
  lemma DecodeExact(ls: Lengths, bits: Bits, s: nat, rest: Bits)
    requires TreeOk(ls)
    ensures Decode(ls, bits) == Ok((s, rest)) <==> s < |ls| && ls[s] >= 1 && bits == CodeBits(ls, s) + rest
  {
    hide First, Count, DecodeFrom, CodeLow, Code;
    if s < |ls| && ls[s] >= 1 && bits == CodeBits(ls, s) + rest {
      DecodeInverts(ls, s, rest);
    }
    if Decode(ls, bits) == Ok((s, rest)) {
      FirstIsZero(ls);
      DecodedFrom(ls, 1, 0, bits);
    }
  }

  lemma FirstIsZero(ls: Lengths)
    ensures First(ls, 1) == 0
  {
  }

  /** No code is a prefix of another symbol's code. */
  lemma PrefixFree(ls: Lengths, s: nat, t: nat)
    requires TreeOk(ls) && s < |ls| && t < |ls| && ls[s] >= 1 && ls[t] >= 1
    requires CodeBits(ls, s) <= CodeBits(ls, t)
    ensures s == t
  {
    hide CodeBits, Decode;
    var more := CodeBits(ls, t)[|CodeBits(ls, s)|..];
    DecodeInverts(ls, s, more);
    DecodeInverts(ls, t, []);
    assert CodeBits(ls, t) + [] == CodeBits(ls, t) == CodeBits(ls, s) + more;
  }

  // ---- the tables of the program ----

  datatype Huffman = Huffman(counts: seq<nat>, symbols: seq<nat>, symbolCount: nat)

  /** The tables of a tree: counts by length, and symbols ordered by length, then by value. */
  ghost predicate Built(h: Huffman, ls: Lengths) {
    && |h.counts| == MAX_CODE_BITS + 1 && |h.symbols| == MAX_SYMBOLS
    && (forall l | 1 <= l <= MAX_CODE_BITS :: h.counts[l] == Count(ls, l))
    && h.symbolCount == Index(ls, MAX_CODE_BITS + 1) <= MAX_SYMBOLS
    && Placed(h.symbols, ls, |ls|)
  }

  /** The place of a symbol in the ordered table. */
  function Place(ls: Lengths, s: nat): nat
    requires s < |ls| && ls[s] >= 1
  {
    Index(ls, ls[s]) + Count(ls[..s], ls[s])
  }

  ghost predicate Placed(symbols: seq<nat>, ls: Lengths, upTo: nat)
    requires upTo <= |ls|
  {
    forall s | 0 <= s < upTo && ls[s] >= 1 :: Place(ls, s) < |symbols| && symbols[Place(ls, s)] == s
  }

  lemma {:induction false} IndexAppend(ls: Lengths, last: nat, l: nat)
    requires l >= 1
    ensures Index(ls + [last], l) == Index(ls, l) + if 1 <= last < l then 1 else 0
  {
    if l > 1 {
      IndexAppend(ls, last, l - 1);
      assert (ls + [last])[..|ls|] == ls;
    }
  }

  lemma {:induction false} IndexBound(ls: Lengths, l: nat)
    requires l >= 1
    ensures Index(ls, l) <= |ls|
  {
    if ls == [] {
      IndexEmpty(l);
    } else {
      var init := ls[..|ls| - 1];
      IndexBound(init, l);
      IndexAppend(init, ls[|ls| - 1], l);
      assert init + [ls[|ls| - 1]] == ls;
    }
  }

  lemma {:induction false} IndexEmpty(l: nat)
    requires l >= 1
    ensures Index([], l) == 0
  {
    if l > 1 { IndexEmpty(l - 1); }
  }

  lemma {:induction false} IndexGrows(ls: Lengths, j: nat, l: nat)
    requires 1 <= j <= l
    ensures Index(ls, j) <= Index(ls, l)
    decreases l
  {
    if j < l { IndexGrows(ls, j, l - 1); }
  }

  /** Different symbols have different places, all below the number of symbols with a code. */
  lemma PlacesDiffer(ls: Lengths, s: nat, t: nat)
    requires s < |ls| && t < |ls| && ls[s] >= 1 && ls[t] >= 1 && s != t && ls[s] <= ls[t] <= MAX_CODE_BITS
    ensures Place(ls, s) != Place(ls, t)
  {
    CountBefore(ls, s);
    if ls[s] < ls[t] {
      IndexGrows(ls, ls[s] + 1, ls[t]);
    } else if s < t {
      RankGrows(ls, s, t);
    } else {
      RankGrows(ls, t, s);
    }
  }

  lemma PlaceBound(ls: Lengths, s: nat)
    requires s < |ls| && 1 <= ls[s] <= MAX_CODE_BITS
    ensures Place(ls, s) < Index(ls, MAX_CODE_BITS + 1) <= |ls|
  {
    CountBefore(ls, s);
    IndexGrows(ls, ls[s] + 1, MAX_CODE_BITS + 1);
    IndexBound(ls, MAX_CODE_BITS + 1);
  }

  method CountLengths(lengths: Lengths) returns (r: Result<seq<nat>>)
    ensures r.Ok? <==> forall s | 0 <= s < |lengths| :: lengths[s] <= MAX_CODE_BITS
    ensures r.Ok? ==> |r.value| == MAX_CODE_BITS + 1
    ensures r.Ok? ==> forall l | 1 <= l <= MAX_CODE_BITS :: r.value[l] == Count(lengths, l)
  {
    var counts: seq<nat> := seq(MAX_CODE_BITS + 1, i => 0);
    for k := 0 to |lengths|
      invariant |counts| == MAX_CODE_BITS + 1
      invariant forall s | 0 <= s < k :: lengths[s] <= MAX_CODE_BITS
      invariant forall l | 1 <= l <= MAX_CODE_BITS :: counts[l] == Count(lengths[..k], l)
    {
      var length := lengths[k];
      if length > MAX_CODE_BITS {
        return Err(Format);
      }
      assert lengths[..k + 1][..k] == lengths[..k];
      if length != 0 {
        counts := counts[length := counts[length] + 1];
      }
    }
    assert lengths[..|lengths|] == lengths;
    r := Ok(counts);
  }

  /** Whether the counts leave no length oversubscribed. */
  method CheckSubscription(ghost ls: Lengths, counts: seq<nat>) returns (ok: bool)
    requires |counts| == MAX_CODE_BITS + 1
    requires forall l | 1 <= l <= MAX_CODE_BITS :: counts[l] == Count(ls, l)
    ensures ok <==> Subscribed(ls, MAX_CODE_BITS)
  {
    hide Count, First, Pow2;
    NextPower(0);
    FirstIsZero(ls);
    var available: int := 1;
    for l := 1 to MAX_CODE_BITS + 1
      invariant Subscribed(ls, l - 1)
      invariant l == 1 ==> available == 1
      invariant l > 1 ==> available == Pow2(l - 1) - (First(ls, l - 1) + Count(ls, l - 1))
      invariant available >= 0
    {
      NextPower(l);
      if l > 1 {
        FirstNext(ls, l - 1);
      }
      available := available * 2 - counts[l];
      assert available == Pow2(l) - (First(ls, l) + Count(ls, l));
      if available < 0 {
        return false;
      }
    }
    ok := true;
  }

  /** The first place of each length, and the number of symbols. */
  method Offsets(ghost ls: Lengths, counts: seq<nat>) returns (offsets: seq<nat>, running: nat)
    requires |counts| == MAX_CODE_BITS + 1
    requires forall l | 1 <= l <= MAX_CODE_BITS :: counts[l] == Count(ls, l)
    ensures |offsets| == MAX_CODE_BITS + 1 && running == Index(ls, MAX_CODE_BITS + 1)
    ensures forall l | 1 <= l <= MAX_CODE_BITS :: offsets[l] == Index(ls, l)
  {
    hide Count;
    offsets := seq(MAX_CODE_BITS + 1, i => 0);
    running := 0;
    for l := 1 to MAX_CODE_BITS + 1
      invariant |offsets| == MAX_CODE_BITS + 1 && running == Index(ls, l)
      invariant forall j | 1 <= j < l :: offsets[j] == Index(ls, j)
    {
      offsets := offsets[l := running];
      running := running + counts[l];
    }
  }

  method PlaceSymbols(lengths: Lengths, first: seq<nat>) returns (symbols: seq<nat>)
    requires |lengths| <= MAX_SYMBOLS && |first| == MAX_CODE_BITS + 1
    requires forall s | 0 <= s < |lengths| :: lengths[s] <= MAX_CODE_BITS
    requires forall l | 1 <= l <= MAX_CODE_BITS :: first[l] == Index(lengths, l)
    ensures |symbols| == MAX_SYMBOLS && Placed(symbols, lengths, |lengths|)
  {
    var offsets := first;
    symbols := seq(MAX_SYMBOLS, i => 0);
    for s := 0 to |lengths|
      invariant |symbols| == MAX_SYMBOLS && |offsets| == MAX_CODE_BITS + 1
      invariant Placed(symbols, lengths, s)
      invariant forall l | 1 <= l <= MAX_CODE_BITS :: offsets[l] == Index(lengths, l) + Count(lengths[..s], l)
    {
      var length := lengths[s];
      assert lengths[..s + 1][..s] == lengths[..s];
      if length != 0 {
        PlaceBound(lengths, s);
        PlaceOthers(symbols, lengths, s);
        symbols := symbols[offsets[length] := s];
        offsets := offsets[length := offsets[length] + 1];
      }
    }
  }

  /** Placing a symbol overwrites no symbol placed before it. */
  lemma PlaceOthers(symbols: seq<nat>, ls: Lengths, s: nat)
    requires s < |ls| && ls[s] >= 1 && Place(ls, s) < |symbols| && Placed(symbols, ls, s)
    requires forall t | 0 <= t < |ls| :: ls[t] <= MAX_CODE_BITS
    ensures Placed(symbols[Place(ls, s) := s], ls, s + 1)
  {
    forall t | 0 <= t < s && ls[t] >= 1
      ensures Place(ls, t) != Place(ls, s)
    {
      if ls[s] <= ls[t] {
        PlacesDiffer(ls, s, t);
      } else {
        PlacesDiffer(ls, t, s);
      }
    }
  }

  predicate Accepted(ls: Lengths, allowEmpty: bool) {
    TreeOk(ls) && (allowEmpty || Index(ls, MAX_CODE_BITS + 1) > 0)
  }

  /** `Huffman::from_lengths` accepts exactly the length vectors that are not oversubscribed. */
  method FromLengths(lengths: Lengths, allowEmpty: bool) returns (r: Result<Huffman>)
    ensures r.Ok? <==> Accepted(lengths, allowEmpty)
    ensures r.Ok? ==> Built(r.value, lengths)
  {
    hide Subscribed, Count, Index;
    if |lengths| > MAX_SYMBOLS {
      return Err(Format);
    }
    var counts :- CountLengths(lengths);
    var offsets, symbolCount := Offsets(lengths, counts);
    if symbolCount == 0 && !allowEmpty {
      return Err(Format);
    }
    var subscribed := CheckSubscription(lengths, counts);
    if !subscribed {
      return Err(Format);
    }
    var symbols := PlaceSymbols(lengths, offsets);
    IndexBound(lengths, MAX_CODE_BITS + 1);
    r := Ok(Huffman(counts, symbols, symbolCount));
  }

  /** `Huffman::decode`, against the canonical codes; the code never falls below the first of its length. */
  method DecodeSymbol(h: Huffman, ghost ls: Lengths, reader: BitReader) returns (r: Result<nat>)
    requires Built(h, ls) && TreeOk(ls) && reader.Valid()
    modifies reader
    ensures r.Ok? <==> Decode(ls, old(reader.View())).Ok?
    ensures r.Ok? ==> reader.Valid() && Decode(ls, old(reader.View())).value == (r.value, reader.View())
  {
    hide Count, TakeBits, Pow2, First, Index, Decode, DecodeFrom, TreeOk, Built, Nth, BitReader.View;
    DecodeStarts(ls, reader.View());
    var code: nat, first: nat, index: nat := 0, 0, 0;
    ghost var whole, read: nat := Decode(ls, reader.View()), 0;
    for l := 1 to MAX_CODE_BITS + 1
      invariant reader.Valid() && first == First(ls, l) && first <= code && index == Index(ls, l)
      invariant code == 2 * read && whole == DecodeFrom(ls, l, read, reader.View())
    {
      DecodeStep(ls, l, read, reader.View());
      var b := reader.ReadBits(1);
      if b.Err? {
        return Err(b.error);
      }
      code := code + b.value;
      CountAt(h, ls, l);
      var end := first + h.counts[l];
      if code < end {
        r := Lookup(h, ls, l, index, code - first);
        return;
      }
      index := index + h.counts[l];
      IndexNext(ls, l);
      first := end * 2;
      read := code;
      code := code * 2;
    }
    DecodeStops(ls, read, reader.View());
    r := Err(Format);
  }

  /** The symbol of the `k`-th code of length `l`; its place is always below the number of symbols. */
  method Lookup(h: Huffman, ghost ls: Lengths, ghost l: nat, index: nat, k: nat) returns (r: Result<nat>)
    requires Built(h, ls) && TreeOk(ls) && 1 <= l <= MAX_CODE_BITS && index == Index(ls, l) && k < Count(ls, l)
    ensures r == Ok(Nth(ls, l, k))
  {
    Found(h, ls, l, k);
    if index + k >= h.symbolCount {
      return Err(Format);
    }
    r := Ok(h.symbols[index + k]);
  }

  lemma CountAt(h: Huffman, ls: Lengths, l: nat)
    requires Built(h, ls) && 1 <= l <= MAX_CODE_BITS
    ensures |h.counts| == MAX_CODE_BITS + 1 && h.counts[l] == Count(ls, l)
  {
  }

  lemma DecodeStarts(ls: Lengths, bits: Bits)
    ensures First(ls, 1) == 0 && Index(ls, 1) == 0 && Decode(ls, bits) == DecodeFrom(ls, 1, 0, bits)
  {
  }

  lemma DecodeStops(ls: Lengths, code: nat, bits: Bits)
    requires First(ls, MAX_CODE_BITS + 1) <= 2 * code
    ensures DecodeFrom(ls, MAX_CODE_BITS + 1, code, bits).Err?
  {
  }

  lemma DecodeStep(ls: Lengths, l: nat, code: nat, bits: Bits)
    requires 1 <= l <= MAX_CODE_BITS && First(ls, l) <= 2 * code
    ensures var b, d := TakeBits(bits, 1), DecodeFrom(ls, l, code, bits);
            && (b.Err? ==> d.Err?)
            && (b.Ok? ==>
                  var c := 2 * code + b.value.0;
                  && First(ls, l + 1) == 2 * (First(ls, l) + Count(ls, l))
                  && d == if c < First(ls, l) + Count(ls, l) then Ok((Nth(ls, l, c - First(ls, l)), b.value.1))
                          else DecodeFrom(ls, l + 1, c, b.value.1))
  {
    hide TakeBits, Count;
    OneBit(bits);
  }

  lemma IndexNext(ls: Lengths, l: nat)
    requires l >= 1
    ensures Index(ls, l + 1) == Index(ls, l) + Count(ls, l)
  {
  }

  /** The tables hold the symbol of every code. */
  lemma Found(h: Huffman, ls: Lengths, l: nat, k: nat)
    requires Built(h, ls) && TreeOk(ls) && 1 <= l <= MAX_CODE_BITS && k < Count(ls, l)
    ensures Index(ls, l) + k < h.symbolCount && Index(ls, l) + k < |h.symbols|
    ensures h.symbols[Index(ls, l) + k] == Nth(ls, l, k)
  {
    hide Count, Index, Subscribed;
    PlaceBound(ls, Nth(ls, l, k));
    assert Place(ls, Nth(ls, l, k)) == Index(ls, l) + k;
  }

  lemma OneBit(bits: Bits)
    ensures TakeBits(bits, 1) == if bits == [] then Err(Format) else Ok((bits[0], bits[1..]))
  {
  }
}
