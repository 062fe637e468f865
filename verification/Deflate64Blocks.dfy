/** Compressed and stored Deflate64 blocks. */
module Deflate64Blocks {
  import opened Prelude
  import opened BitStrings
  import opened Lz77
  import opened Deflate64Bits
  import opened Deflate64Huffman
  import opened Deflate64Tables

  const END_OF_BLOCK: nat := 256

  /** Any two trees the program builds: the alphabets have at most 288 and 32 symbols. */
  predicate TreesOk(ls: Lengths, ds: Lengths) {
    TreeOk(ls) && TreeOk(ds) && |ls| <= 288 && |ds| <= 32
  }

  datatype Token =
    | Literal(b: byte)
    | Match(lengthCode: nat, lengthExtra: nat, distance: nat)

  predicate HasCode(ls: Lengths, s: nat) {
    s < |ls| && ls[s] >= 1
  }

  /** The trees have codes for the token, and its extra bits are in range. */
  predicate TokenOk(ls: Lengths, ds: Lengths, t: Token) {
    match t
    case Literal(b) => HasCode(ls, b)
    case Match(lengthCode, lengthExtra, distance) =>
      && lengthCode < 29 && HasCode(ls, 257 + lengthCode)
      && lengthExtra < Pow2(LENGTH_EXTRA[lengthCode])
      && 1 <= distance <= HISTORY && HasCode(ds, DistanceSymbol(distance))
  }

  function Length(t: Token): nat
    requires t.Match? && t.lengthCode < 29
  {
    LENGTH_BASE[t.lengthCode] + t.lengthExtra
  }

  function TokenBits(ls: Lengths, ds: Lengths, t: Token): (bits: Bits)
    requires TokenOk(ls, ds, t)
    ensures |bits| >= 1
  {
    match t
    case Literal(b) => CodeBits(ls, b)
    case Match(lengthCode, lengthExtra, distance) =>
      var s := DistanceSymbol(distance);
      CodeBits(ls, 257 + lengthCode) + Low(lengthExtra, LENGTH_EXTRA[lengthCode])
      + CodeBits(ds, s) + Low(distance - DISTANCE_BASE[s], DISTANCE_EXTRA[s])
  }

  /** One turn of the loop of `decode_compressed_block`, before the output is touched: a token or the end. */
  function ReadToken(ls: Lengths, ds: Lengths, bits: Bits): (x: Result<(Option<Token>, Bits)>)
    ensures x.Ok? ==> |x.value.1| < |bits|
    ensures x.Ok? && x.value.0.Some? && x.value.0.value.Match? ==> x.value.0.value.lengthCode < 29
  {
    hide Decode, TakeBits;
    var (symbol, n) :- Decode(ls, bits);
    if symbol < 256 then Ok((Some(Literal(symbol)), n))
    else if symbol == END_OF_BLOCK then Ok((None, n))
    else if symbol > 285 then Err(Format)
    else
      TableSizes();
      var (extra, n1) :- TakeBits(n, LENGTH_EXTRA[symbol - 257]);
      ReadDistance(ds, symbol - 257, extra, n1)
  }

  function ReadDistance(ds: Lengths, lengthCode: nat, extra: nat, bits: Bits): (x: Result<(Option<Token>, Bits)>)
    ensures x.Ok? ==> |x.value.1| < |bits|
    ensures x.Ok? ==> x.value.0.Some? && x.value.0.value.Match? && x.value.0.value.lengthCode == lengthCode
  {
    hide Decode, TakeBits;
    var (s, n) :- Decode(ds, bits);
    if s >= 32 then Err(Format)
    else
      TableSizes();
      var (x, n1) :- TakeBits(n, DISTANCE_EXTRA[s]);
      Ok((Some(Match(lengthCode, extra, DISTANCE_BASE[s] + x)), n1))
  }

  lemma DistanceRead(ds: Lengths, lengthCode: nat, extra: nat, bits: Bits)
    requires TreeOk(ds) && |ds| <= 32 && ReadDistance(ds, lengthCode, extra, bits).Ok?
    ensures var (t, rest) := ReadDistance(ds, lengthCode, extra, bits).value;
            && t.Some? && t.value.Match? && t.value.lengthCode == lengthCode && t.value.lengthExtra == extra
            && var d := t.value.distance;
               && 1 <= d <= HISTORY
               && var s := DistanceSymbol(d);
                  && HasCode(ds, s)
                  && bits == CodeBits(ds, s) + (Low(d - DISTANCE_BASE[s], DISTANCE_EXTRA[s]) + rest)
  {
    hide Decode, TakeBits, CodeBits, TreeOk, DistanceSymbol, Low, Value;
    hide DISTANCE_BASE, DISTANCE_EXTRA, LENGTH_BASE, LENGTH_EXTRA, Pow2;
    TableSizes();
    var (s, n) := Decode(ds, bits).value;
    DecodeExact(ds, bits, s, n);
    var (x, rest) := TakeBits(n, DISTANCE_EXTRA[s]).value;
    TakeExact(n, DISTANCE_EXTRA[s]);
    DistanceUnique(s, x);
  }

  lemma DistanceWritten(ds: Lengths, lengthCode: nat, extra: nat, d: nat, more: Bits)
    requires TreeOk(ds) && 1 <= d <= HISTORY && HasCode(ds, DistanceSymbol(d))
    ensures var s := DistanceSymbol(d);
            ReadDistance(ds, lengthCode, extra, CodeBits(ds, s) + (Low(d - DISTANCE_BASE[s], DISTANCE_EXTRA[s]) + more))
            == Ok((Some(Match(lengthCode, extra, d)), more))
  {
    hide Decode, TakeBits, CodeBits, TreeOk, DistanceSymbol, Low, Value;
    hide DISTANCE_BASE, DISTANCE_EXTRA, LENGTH_BASE, LENGTH_EXTRA, Pow2;
    TableSizes();
    var s := DistanceSymbol(d);
    DecodeInverts(ds, s, Low(d - DISTANCE_BASE[s], DISTANCE_EXTRA[s]) + more);
    TakeInverts(d - DISTANCE_BASE[s], DISTANCE_EXTRA[s], more);
  }

  /** A token decodes from its own bits. */
  lemma TokenInverts(ls: Lengths, ds: Lengths, t: Token, more: Bits)
    requires TreesOk(ls, ds) && TokenOk(ls, ds, t)
    ensures ReadToken(ls, ds, TokenBits(ls, ds, t) + more) == Ok((Some(t), more))
  {
    hide Decode, TakeBits, CodeBits, TreeOk, DistanceSymbol, Low, Value, ReadDistance;
    hide DISTANCE_BASE, DISTANCE_EXTRA, LENGTH_BASE, LENGTH_EXTRA, Pow2;
    TableSizes();
    match t
    case Literal(b) =>
      DecodeInverts(ls, b, more);
    case Match(lengthCode, extra, d) =>
      var s := DistanceSymbol(d);
      var tail := CodeBits(ds, s) + (Low(d - DISTANCE_BASE[s], DISTANCE_EXTRA[s]) + more);
      DistanceWritten(ds, lengthCode, extra, d, more);
      TakeInverts(extra, LENGTH_EXTRA[lengthCode], tail);
      DecodeInverts(ls, 257 + lengthCode, Low(extra, LENGTH_EXTRA[lengthCode]) + tail);
      assert TokenBits(ls, ds, t) + more
          == CodeBits(ls, 257 + lengthCode) + (Low(extra, LENGTH_EXTRA[lengthCode]) + tail);
  }

  lemma EndInverts(ls: Lengths, ds: Lengths, more: Bits)
    requires TreesOk(ls, ds) && HasCode(ls, END_OF_BLOCK)
    ensures ReadToken(ls, ds, CodeBits(ls, END_OF_BLOCK) + more) == Ok((None, more))
  {
    hide Decode, CodeBits, TreeOk;
    DecodeInverts(ls, END_OF_BLOCK, more);
  }

  /** Only a token's own bits decode to it. */
  lemma TokenExact(ls: Lengths, ds: Lengths, bits: Bits)
    requires TreesOk(ls, ds) && ReadToken(ls, ds, bits).Ok?
    ensures var (t, rest) := ReadToken(ls, ds, bits).value;
            if t.Some? then TokenOk(ls, ds, t.value) && bits == TokenBits(ls, ds, t.value) + rest
            else HasCode(ls, END_OF_BLOCK) && bits == CodeBits(ls, END_OF_BLOCK) + rest
  {
    hide Decode, TakeBits, CodeBits, TreeOk, DistanceSymbol, Low, Value, ReadDistance;
    hide DISTANCE_BASE, DISTANCE_EXTRA, LENGTH_BASE, LENGTH_EXTRA, Pow2;
    TableSizes();
    var (symbol, n) := Decode(ls, bits).value;
    DecodeExact(ls, bits, symbol, n);
    if 257 <= symbol {
      var code := symbol - 257;
      var (extra, n1) := TakeBits(n, LENGTH_EXTRA[code]).value;
      TakeExact(n, LENGTH_EXTRA[code]);
      DistanceRead(ds, code, extra, n1);
      var (t, rest) := ReadToken(ls, ds, bits).value;
      var d := t.value.distance;
      var s := DistanceSymbol(d);
      assert bits == CodeBits(ls, symbol)
                     + (Low(extra, LENGTH_EXTRA[code])
                        + (CodeBits(ds, s) + (Low(d - DISTANCE_BASE[s], DISTANCE_EXTRA[s]) + rest)));
    }
  }

  // ---- the block loop ----

  /** The declared size, if any, and the output limit. */
  datatype Bounds = Bounds(expected: Option<nat>, maximum: nat)

  function Ceiling(w: Bounds): nat {
    if w.expected.Some? then Min(w.expected.value, w.maximum) else w.maximum
  }

  /** `reserve_output`, without the allocation. */
  function Reserve(size: nat, additional: nat, w: Bounds): (x: Result<()>)
    ensures x.Ok? <==> size + additional <= Ceiling(w)
  {
    if w.expected.Some? && size + additional > w.expected.value then Err(Format)
    else if size + additional > w.maximum then Err(LimitExceeded)
    else Ok(())
  }

  function CopyMatch(out: seq<byte>, distance: nat, length: nat, w: Bounds): Result<seq<byte>> {
    if distance == 0 || distance > HISTORY || distance > |out| then Err(Format)
    else
      var _ :- Reserve(|out|, length, w);
      Ok(Copied(out, distance, length))
  }

  function Put(t: Token, out: seq<byte>, w: Bounds): Result<seq<byte>>
    requires t.Match? ==> t.lengthCode < 29
  {
    match t
    case Literal(b) =>
      var _ :- Reserve(|out|, 1, w);
      Ok(out + [b])
    case Match(_, _, distance) => CopyMatch(out, distance, Length(t), w)
  }

  /** `decode_compressed_block`; every token takes at least one bit. */
  function Block(ls: Lengths, ds: Lengths, bits: Bits, out: seq<byte>, w: Bounds): (x: Result<(seq<byte>, Bits)>)
    ensures x.Ok? ==> |x.value.1| < |bits|
    decreases |bits|
  {
    hide ReadToken, Put;
    var (t, n) :- ReadToken(ls, ds, bits);
    if t.None? then Ok((out, n))
    else
      var out' :- Put(t.value, out, w);
      Block(ls, ds, n, out', w)
  }

  // ---- what a token list means ----

  /** A match may reach back over all output so far, but no further. */
  predicate InHistory(out: seq<byte>, t: Token) {
    t.Match? ==> t.lengthCode < 29 && 1 <= t.distance <= |out|
  }

  function Apply(out: seq<byte>, t: Token): seq<byte>
    requires InHistory(out, t)
  {
    match t
    case Literal(b) => out + [b]
    case Match(_, _, distance) => Copied(out, distance, Length(t))
  }

  predicate AllOk(ls: Lengths, ds: Lengths, out: seq<byte>, ts: seq<Token>)
    decreases |ts|
  {
    ts == [] ||
    (TokenOk(ls, ds, ts[0]) && InHistory(out, ts[0]) && AllOk(ls, ds, Apply(out, ts[0]), ts[1..]))
  }

  /** The expansion of a token list: literals, and overlapping copies of earlier output. */
  function Expand(ls: Lengths, ds: Lengths, out: seq<byte>, ts: seq<Token>): (r: seq<byte>)
    requires AllOk(ls, ds, out, ts)
    ensures out <= r
    decreases |ts|
  {
    if ts == [] then out else Expand(ls, ds, Apply(out, ts[0]), ts[1..])
  }

  /** The bits of a block: its tokens, then the end-of-block code. */
  function BlockBits(ls: Lengths, ds: Lengths, out: seq<byte>, ts: seq<Token>): Bits
    requires HasCode(ls, END_OF_BLOCK) && AllOk(ls, ds, out, ts)
    decreases |ts|
  {
    if ts == [] then CodeBits(ls, END_OF_BLOCK)
    else TokenBits(ls, ds, ts[0]) + BlockBits(ls, ds, Apply(out, ts[0]), ts[1..])
  }

  lemma Puts(t: Token, out: seq<byte>, w: Bounds, ls: Lengths, ds: Lengths)
    requires TokenOk(ls, ds, t)
    ensures Put(t, out, w).Ok? <==> InHistory(out, t) && |Apply(out, t)| <= Ceiling(w)
    ensures Put(t, out, w).Ok? ==> Put(t, out, w).value == Apply(out, t)
  {
    hide CodeBits, DISTANCE_BASE, DISTANCE_EXTRA, LENGTH_BASE, LENGTH_EXTRA, DistanceSymbol, Ceiling;
    TableSizes();
  }

  /** Every list of literals and in-history matches decodes to its expansion. */
  lemma {:induction false} BlockInverts(ls: Lengths, ds: Lengths, out: seq<byte>, ts: seq<Token>, w: Bounds, more: Bits)
    requires TreesOk(ls, ds) && HasCode(ls, END_OF_BLOCK) && AllOk(ls, ds, out, ts)
    requires |Expand(ls, ds, out, ts)| <= Ceiling(w)
    ensures Block(ls, ds, BlockBits(ls, ds, out, ts) + more, out, w) == Ok((Expand(ls, ds, out, ts), more))
    decreases |ts|
  {
    hide ReadToken, Put, TreesOk, HasCode, TokenBits, TokenOk, InHistory, Apply, CodeBits, Ceiling;
    var bits := BlockBits(ls, ds, out, ts) + more;
    if ts == [] {
      EndInverts(ls, ds, more);
    } else {
      var out' := Apply(out, ts[0]);
      var tail := BlockBits(ls, ds, out', ts[1..]) + more;
      assert bits == TokenBits(ls, ds, ts[0]) + tail;
      TokenInverts(ls, ds, ts[0], tail);
      assert |out'| <= |Expand(ls, ds, out', ts[1..])|;
      Puts(ts[0], out, w, ls, ds);
      BlockInverts(ls, ds, out', ts[1..], w, more);
    }
  }

  /** Conversely an accepted block is the code of a token list, and the output is its expansion. */
  lemma {:induction false} BlockExact(ls: Lengths, ds: Lengths, bits: Bits, out: seq<byte>, w: Bounds)
    returns (ts: seq<Token>)
    requires TreesOk(ls, ds) && Block(ls, ds, bits, out, w).Ok?
    ensures HasCode(ls, END_OF_BLOCK) && AllOk(ls, ds, out, ts)
    ensures var (all, rest) := Block(ls, ds, bits, out, w).value;
            all == Expand(ls, ds, out, ts) && bits == BlockBits(ls, ds, out, ts) + rest
    decreases |bits|
  {
    hide ReadToken, Put, TreesOk, HasCode, TokenBits, TokenOk, InHistory, Apply, CodeBits, Ceiling;
    TokenExact(ls, ds, bits);
    var (t, n) := ReadToken(ls, ds, bits).value;
    if t.None? {
      ts := [];
    } else {
      Puts(t.value, out, w, ls, ds);
      var out' := Put(t.value, out, w).value;
      var tail := BlockExact(ls, ds, n, out', w);
      ts := [t.value] + tail;
      assert ts[1..] == tail;
    }
  }
}
