/** BCJ2: four streams merged into one, with a range coder that tells which branches were converted. */
module Bcj2Filter {
  import opened Prelude
  import opened LzmaRange
  import F = BranchFilters

  const CONTEXTS: nat := 258

  type Probs = ps: seq<Prob> | |ps| == CONTEXTS witness seq(CONTEXTS, _ => PROB_INITIAL)

  /** A call or a jump, or the second byte of a conditional jump. */
  predicate IsBranch(previous: byte, current: byte) {
    current / 2 == 0x74 || (previous == 0x0f && current / 0x10 == 8)
  }

  function ProbabilityIndex(previous: byte, current: byte): (i: nat)
    ensures i < CONTEXTS
  {
    if current == 0xe8 then previous else if current == 0xe9 then 256 else 257
  }

  /** `Bcj2Range::new` reads five bytes and forgets the first. */
  function Begin(input: seq<byte>): (r: Result<Registers>)
    ensures r.Ok? ==> r.value.range >= TOP
  {
    if |input| < 5 then Err(Format)
    else
      BigEndianBound(input[1..5]);
      PowSmall(4);
      Ok(Registers(FULL_RANGE, BigEndian(input[1..5]), input[5..]))
  }

  // ---- merging ----

  datatype Sources = Sources(main: seq<byte>, call: seq<byte>, jump: seq<byte>)

  /** What is carried from one byte of the main stream to the next. */
  datatype Coder = Coder(probs: Probs, r: Registers)

  predicate CoderOk(c: Coder) {
    c.r.range >= TOP
  }

  function DecodeFlag(c: Coder, i: nat): (x: Result<(bit, Coder)>)
    requires CoderOk(c) && i < CONTEXTS
    ensures x.Ok? ==> CoderOk(x.value.1)
  {
    var (b, n) :- BitStep(c.r, c.probs[i]);
    Ok((b, Coder(c.probs[i := Adapt(c.probs[i], b)], n)))
  }

  /** Takes the absolute target of a converted branch from its stream. */
  function Operand(s: Sources, current: byte): (x: Result<(u32, Sources)>)
    ensures x.Ok? ==> x.value.1.main == s.main
  {
    if current == 0xe8 then
      if |s.call| < 4 then Err(Format) else Ok((F.FromBig(s.call[..4]), s.(call := s.call[4..])))
    else
      if |s.jump| < 4 then Err(Format) else Ok((F.FromBig(s.jump[..4]), s.(jump := s.jump[4..])))
  }

  /** The relative target after `n` bytes of output, counted from the end of the operand. */
  function Relative(encoded: u32, n: nat): u32 {
    F.Moved(encoded, n + 4, F.WORDS, false)
  }

  /** Everything carried from one byte of the main stream to the next. */
  datatype Turn = Turn(s: Sources, c: Coder, previous: byte, out: seq<byte>)

  /** A branch that is already in the output: its flag, and its target if it was converted. */
  function Convert(s: Sources, c: Coder, previous: byte, b: byte, out: seq<byte>, maximum: nat): (x: Result<Turn>)
    requires CoderOk(c)
    ensures x.Ok? ==> CoderOk(x.value.c) && x.value.s.main == s.main
  {
    var (flag, c') :- DecodeFlag(c, ProbabilityIndex(previous, b));
    if flag == 0 then Ok(Turn(s, c', b, out))
    else
      var (encoded, s') :- Operand(s, b);
      var destination := Relative(encoded, |out|);
      if |out| + 4 > maximum then Err(LimitExceeded)
      else Ok(Turn(s', c', destination / 0x100_0000, out + F.ToLittle(destination)))
  }

  function Merge(s: Sources, c: Coder, previous: byte, out: seq<byte>, maximum: nat): Result<seq<byte>>
    requires CoderOk(c)
    decreases |s.main|
  {
    if s.main == [] then
      if s.call != [] || s.jump != [] then Err(Format) else Ok(out)
    else if |out| + 1 > maximum then Err(LimitExceeded)
    else
      var b, rest, out' := s.main[0], s.(main := s.main[1..]), out + [s.main[0]];
      if !IsBranch(previous, b) then Merge(rest, c, b, out', maximum)
      else
        var t :- Convert(rest, c, previous, b, out', maximum);
        Merge(t.s, t.c, t.previous, t.out, maximum)
  }

  function DecodeBcj2(inputs: seq<seq<byte>>, properties: seq<byte>, expected: Option<nat>, maximum: nat)
    : Result<seq<byte>>
  {
    if properties != [] || |inputs| != 4 then Err(Format)
    else if expected.Some? && expected.value > maximum then Err(LimitExceeded)
    else
      var r :- Begin(inputs[3]);
      var out :- Merge(Sources(inputs[0], inputs[1], inputs[2]), Coder(Fresh(), r), 0, [], maximum);
      if expected.Some? && |out| != expected.value then Err(Format) else Ok(out)
  }

  function Fresh(): Probs {
    seq(CONTEXTS, _ => PROB_INITIAL)
  }

  // ---- splitting ----

  /** A byte of the program; for a branch that was converted, with its four-byte relative target. */
  datatype Token = Token(b: byte, target: Option<u32>)

  /** Only branches can be converted. */
  predicate Legal(tokens: seq<Token>, previous: byte) {
    tokens == [] ||
    (var t := tokens[0];
     && (t.target.Some? ==> IsBranch(previous, t.b))
     && Legal(tokens[1..], Last(t)))
  }

  /** The byte that precedes the next token. */
  function Last(t: Token): byte {
    if t.target.Some? then t.target.value / 0x100_0000 else t.b
  }

  /** The program. */
  function Expand(tokens: seq<Token>): seq<byte> {
    if tokens == [] then [] else Plain(tokens[0]) + Expand(tokens[1..])
  }

  function Plain(t: Token): seq<byte> {
    [t.b] + if t.target.Some? then F.ToLittle(t.target.value) else []
  }

  function Absolute(target: u32, n: nat): u32 {
    F.Moved(target, n + 4, F.WORDS, true)
  }

  datatype Streams = Streams(s: Sources, ds: seq<Decision>)

  /** The streams an encoder writes when `n` bytes came before. */
  function Encode(tokens: seq<Token>, previous: byte, n: nat, probs: Probs): Streams {
    if tokens == [] then Streams(Sources([], [], []), [])
    else
      var t := tokens[0];
      if !IsBranch(previous, t.b) then
        var tail := Encode(tokens[1..], t.b, n + 1, probs);
        tail.(s := tail.s.(main := [t.b] + tail.s.main))
      else
        var i, flag := ProbabilityIndex(previous, t.b), Flag(t);
        var tail := Encode(tokens[1..], Last(t), n + |Plain(t)|, probs[i := Adapt(probs[i], flag)]);
        Streams(WithOperand(t, n + 1, tail.s.(main := [t.b] + tail.s.main)), [Adaptive(probs[i], flag)] + tail.ds)
  }

  function Flag(t: Token): bit {
    if t.target.Some? then 1 else 0
  }

  function WithOperand(t: Token, n: nat, s: Sources): Sources {
    if t.target.None? then s
    else
      var word := F.ToBig(Absolute(t.target.value, n));
      if t.b == 0xe8 then s.(call := word + s.call) else s.(jump := word + s.jump)
  }

  /** The operand stream gives the target back. */
  lemma OperandInverts(t: Token, n: nat, s: Sources)
    requires t.target.Some?
    ensures var x := Operand(WithOperand(t, n, s), t.b);
            x.Ok? && x.value.1 == s && Relative(x.value.0, n) == t.target.value
  {
    var word := F.ToBig(Absolute(t.target.value, n));
    F.BigInverse(Absolute(t.target.value, n));
    F.MovedBack(t.target.value, n + 4, F.WORDS, true);
    assert (word + s.call)[..4] == word && (word + s.call)[4..] == s.call;
    assert (word + s.jump)[..4] == word && (word + s.jump)[4..] == s.jump;
  }

  /** The flag comes back with the probability adapted as the encoder adapted it. */
  lemma FlagInverts(c: Coder, previous: byte, t: Token, ds: seq<Decision>)
    requires CoderOk(c)
    requires var i := ProbabilityIndex(previous, t.b); Replay(c.r, [Adaptive(c.probs[i], Flag(t))] + ds).Some?
    ensures var i, x := ProbabilityIndex(previous, t.b), DecodeFlag(c, ProbabilityIndex(previous, t.b));
            && x.Ok? && x.value.0 == Flag(t)
            && x.value.1.probs == c.probs[i := Adapt(c.probs[i], Flag(t))]
            && Replay(x.value.1.r, ds).Some?
  {
    hide BitStep, Adapt;
    var i := ProbabilityIndex(previous, t.b);
    assert ([Adaptive(c.probs[i], Flag(t))] + ds)[1..] == ds;
  }

  /** A byte that is no branch passes through. */
  lemma PassThrough(tokens: seq<Token>, previous: byte, c: Coder, out: seq<byte>, maximum: nat)
    requires CoderOk(c) && Legal(tokens, previous) && tokens != [] && !IsBranch(previous, tokens[0].b)
    requires |out| + 1 <= maximum
    ensures var b := tokens[0].b;
            var e, tail := Encode(tokens, previous, |out|, c.probs), Encode(tokens[1..], b, |out| + 1, c.probs);
            && e.ds == tail.ds && Plain(tokens[0]) == [b] && Legal(tokens[1..], b)
            && Merge(e.s, c, previous, out, maximum) == Merge(tail.s, c, b, out + [b], maximum)
  {
    hide IsBranch;
    var b, tail := tokens[0].b, Encode(tokens[1..], tokens[0].b, |out| + 1, c.probs);
    assert ([b] + tail.s.main)[1..] == tail.s.main;
  }

  /** A branch costs a flag, and its operand if it was converted. */
  lemma TakeBranch(tokens: seq<Token>, previous: byte, c: Coder, out: seq<byte>, maximum: nat)
    requires CoderOk(c) && Legal(tokens, previous) && tokens != [] && IsBranch(previous, tokens[0].b)
    requires |out| + |Plain(tokens[0])| <= maximum
    requires Replay(c.r, Encode(tokens, previous, |out|, c.probs).ds).Some?
    ensures var t := tokens[0];
            var x := DecodeFlag(c, ProbabilityIndex(previous, t.b));
            && x.Ok? && Legal(tokens[1..], Last(t))
            && var e := Encode(tokens, previous, |out|, c.probs);
               var tail := Encode(tokens[1..], Last(t), |out| + |Plain(t)|, x.value.1.probs);
               && Replay(x.value.1.r, tail.ds).Some?
               && Merge(e.s, c, previous, out, maximum)
                  == Merge(tail.s, x.value.1, Last(t), out + Plain(t), maximum)
  {
    hide DecodeFlag, Operand, Relative, IsBranch, Adapt, Replay, WithOperand, F.ToLittle;
    var t, i := tokens[0], ProbabilityIndex(previous, tokens[0].b);
    var tail := Encode(tokens[1..], Last(t), |out| + |Plain(t)|, c.probs[i := Adapt(c.probs[i], Flag(t))]);
    FlagInverts(c, previous, t, tail.ds);
    var s := tail.s.(main := [t.b] + tail.s.main);
    assert s.main[1..] == tail.s.main;
    OperandKeeps(t, |out| + 1, s, tail.s);
    if t.target.Some? {
      OperandInverts(t, |out| + 1, tail.s);
      assert out + Plain(t) == out + [t.b] + F.ToLittle(t.target.value);
    } else {
      assert Plain(t) == [t.b];
    }
  }

  /** Operands and main bytes go to different streams. */
  lemma OperandKeeps(t: Token, n: nat, s: Sources, tail: Sources)
    requires s == tail.(main := s.main)
    ensures WithOperand(t, n, s).main == s.main
    ensures WithOperand(t, n, s).(main := tail.main) == WithOperand(t, n, tail)
    ensures t.target.None? ==> WithOperand(t, n, s) == s
  {
  }

  /** Merging what an encoder split gives the program back, with every converted branch relative again. */
  lemma {:induction false} MergeInverts(tokens: seq<Token>, previous: byte, c: Coder, out: seq<byte>, maximum: nat)
    requires CoderOk(c) && Legal(tokens, previous) && |out| + |Expand(tokens)| <= maximum
    requires Replay(c.r, Encode(tokens, previous, |out|, c.probs).ds).Some?
    ensures Merge(Encode(tokens, previous, |out|, c.probs).s, c, previous, out, maximum) == Ok(out + Expand(tokens))
  {
    hide DecodeFlag, IsBranch, Replay;
    if tokens == [] {
      assert out + Expand(tokens) == out;
    } else {
      var t := tokens[0];
      assert out + Expand(tokens) == out + Plain(t) + Expand(tokens[1..]);
      hide Merge, Encode, Legal, Expand, Plain;
      if IsBranch(previous, t.b) {
        TakeBranch(tokens, previous, c, out, maximum);
        var c' := DecodeFlag(c, ProbabilityIndex(previous, t.b)).value.1;
        MergeInverts(tokens[1..], Last(t), c', out + Plain(t), maximum);
      } else {
        PassThrough(tokens, previous, c, out, maximum);
        MergeInverts(tokens[1..], t.b, c, out + [t.b], maximum);
      }
    }
  }

  /** Whatever branches an encoder converts, its four streams merge into the program. */
  lemma Bcj2Inverts(tokens: seq<Token>, expected: Option<nat>, maximum: nat)
    requires Legal(tokens, 0) && |Expand(tokens)| <= maximum
    requires expected.Some? ==> expected.value == |Expand(tokens)|
    ensures var e := Encode(tokens, 0, 0, Fresh());
            DecodeBcj2([e.s.main, e.s.call, e.s.jump, CodeBytes(e.ds)], [], expected, maximum) == Ok(Expand(tokens))
  {
    hide Merge, Encode, Legal, Expand, Replay, CodeBytes;
    var e := Encode(tokens, 0, 0, Fresh());
    CodePresented(e.ds);
    CodeBytesDecode(e.ds);
    var input := CodeBytes(e.ds);
    assert Begin(input) == Start(input);
    MergeInverts(tokens, 0, Coder(Fresh(), Begin(input).value), [], maximum);
    assert [] + Expand(tokens) == Expand(tokens);
  }

  /** Every byte string is a program, if nothing is converted. */
  function Unconverted(s: seq<byte>): seq<Token> {
    if s == [] then [] else [Token(s[0], None)] + Unconverted(s[1..])
  }

  lemma {:induction false} UnconvertedExpands(s: seq<byte>, previous: byte)
    ensures Legal(Unconverted(s), previous) && Expand(Unconverted(s)) == s
    decreases |s|
  {
    if s != [] {
      UnconvertedExpands(s[1..], s[0]);
      assert Unconverted(s)[1..] == Unconverted(s[1..]);
    }
  }

  // ---- in place ----

  class Bcj2Cursor {
    const bytes: seq<byte>
    var position: nat

    ghost predicate Valid()
      reads this
    {
      position <= |bytes|
    }

    ghost function Rest(): seq<byte>
      requires Valid()
      reads this
    {
      bytes[position..]
    }

    constructor (bytes: seq<byte>)
      ensures Valid() && Rest() == bytes && this.bytes == bytes
    {
      this.bytes := bytes;
      position := 0;
    }

    method ReadByte() returns (r: Result<byte>)
      requires Valid()
      modifies this
      ensures Valid()
      ensures r.Err? <==> old(Rest()) == []
      ensures r.Ok? ==> old(Rest()) == [r.value] + Rest()
    {
      if position == |bytes| {
        return Err(Format);
      }
      position := position + 1;
      r := Ok(bytes[position - 1]);
    }

    method ReadU32() returns (r: Result<u32>)
      requires Valid()
      modifies this
      ensures Valid()
      ensures r.Ok? <==> |old(Rest())| >= 4
      ensures r.Ok? ==> r.value == F.FromBig(old(Rest())[..4]) && Rest() == old(Rest())[4..]
    {
      ghost var before := Rest();
      var word: seq<byte> := [];
      for i := 0 to 4
        invariant Valid() && |word| == i && before == word + Rest()
      {
        var byte_ := ReadByte();
        if byte_.Err? {
          return Err(byte_.error);
        }
        word := word + [byte_.value];
      }
      assert before[..4] == word && before[4..] == Rest();
      r := Ok(F.FromBig(word));
    }

    predicate IsFinished()
      reads this
    {
      position == |bytes|
    }
  }

  class Bcj2Range {
    const input: Bcj2Cursor
    var range: u32
    var code: u32
    var probabilities: Probs

    ghost predicate Valid()
      reads this, input
    {
      input.Valid() && range >= TOP
    }

    ghost function View(): Coder
      requires input.Valid()
      reads this, input
    {
      Coder(probabilities, Registers(range, code, input.Rest()))
    }

    constructor (input: Bcj2Cursor, code: u32)
      requires input.Valid()
      ensures Valid() && this.input == input && View() == Coder(Fresh(), Registers(FULL_RANGE, code, input.Rest()))
    {
      this.input, range, this.code := input, FULL_RANGE, code;
      probabilities := Fresh();
    }

    static method New(bytes: seq<byte>) returns (r: Result<Bcj2Range>)
      ensures r.Ok? <==> Begin(bytes).Ok?
      ensures r.Ok? ==> fresh(r.value) && fresh(r.value.input) && r.value.Valid()
      ensures r.Ok? ==> r.value.View() == Coder(Fresh(), Begin(bytes).value)
    {
      hide BigEndian, ShiftedIn;
      var input := new Bcj2Cursor(bytes);
      var code: u32 := 0;
      assert bytes[..0] == [];
      NoDigits();
      for k := 0 to 5
        invariant input.Valid() && input.bytes == bytes && input.position == k && fresh(input)
        invariant code == BigEndian(bytes[..k]) % 0x1_0000_0000
      {
        var byte_ := input.ReadByte();
        if byte_.Err? {
          return Err(byte_.error);
        }
        NextDigits(bytes, k);
        code := ShiftedIn(code, byte_.value);
      }
      FirstForgotten(bytes);
      var range := new Bcj2Range(input, code);
      r := Ok(range);
    }

    /** The normalization at the end of `decode`. */
    method Restore() returns (r: Result<()>)
      requires input.Valid()
      modifies this`range, this`code, input
      ensures input.Valid() && probabilities == old(probabilities)
      ensures r.Ok? <==> Normalize(old(View()).r).Ok?
      ensures r.Ok? ==> View().r == Normalize(old(View()).r).value
    {
      if range < TOP {
        var byte_ := input.ReadByte();
        if byte_.Err? {
          return Err(byte_.error);
        }
        assert old(View()).r.rest[1..] == input.Rest();
        code := ShiftedIn(code, byte_.value);
        range := range * 0x100 % 0x1_0000_0000;
      }
      r := Ok(());
    }

    method Decode(index: nat) returns (r: Result<bit>)
      requires Valid() && index < CONTEXTS
      modifies this, input
      ensures r.Ok? <==> DecodeFlag(old(View()), index).Ok?
      ensures r.Ok? ==> Valid() && DecodeFlag(old(View()), index).value == (r.value, View())
    {
      hide Adapt, Normalize;
      var p := probabilities[index];
      BoundInside(range, p);
      var bound: u32 := range / 2048 * p as int;
      assert bound == Bound(range, p);
      hide Bound;
      var selected: bit := 0;
      if code < bound {
        range := bound;
        p := Adapt(p, 0);
      } else {
        range := range - bound;
        code := code - bound;
        p := Adapt(p, 1);
        selected := 1;
      }
      probabilities := probabilities[index := p];
      var n := Restore();
      r := if n.Ok? then Ok(selected) else Err(n.error);
    }
  }

  /** `code` after a wrapping shift by eight bits. */
  function ShiftedIn(code: u32, b: byte): u32 {
    code as int * 0x100 % 0x1_0000_0000 + b as int
  }

  lemma NoDigits()
    ensures BigEndian([]) % 0x1_0000_0000 == 0
  {
  }

  /** Shifting a byte in keeps the low 32 bits of the number read so far. */
  lemma NextDigits(bytes: seq<byte>, k: nat)
    requires k < |bytes|
    ensures ShiftedIn(BigEndian(bytes[..k]) % 0x1_0000_0000, bytes[k]) == BigEndian(bytes[..k + 1]) % 0x1_0000_0000
  {
    assert bytes[..k + 1] == bytes[..k] + [bytes[k]];
    BigEndianAppend(bytes[..k], bytes[k]);
    ShiftIn(BigEndian(bytes[..k]), bytes[k]);
  }

  lemma ShiftIn(x: nat, b: byte)
    ensures ShiftedIn(x % 0x1_0000_0000, b) == (0x100 * x + b as int) % 0x1_0000_0000
  {
    var q, r := x / 0x100_0000, x % 0x100_0000;
    var h := x / 0x1_0000_0000;
    var l := x % 0x1_0000_0000;
    DivModIs(0x100 * x + b as int, 0x1_0000_0000, q, 0x100 * r + b as int);
    DivModIs(0x100 * l, 0x1_0000_0000, q - 0x100 * h, 0x100 * r);
  }

  /** So the first of five bytes is shifted out. */
  lemma FirstForgotten(bytes: seq<byte>)
    requires |bytes| >= 5
    ensures BigEndian(bytes[..5]) % 0x1_0000_0000 == BigEndian(bytes[1..5])
  {
    BigEndianSplit(bytes[..5], 1);
    assert bytes[..5][1..] == bytes[1..5];
    BigEndianBound(bytes[1..5]);
    assert Pow256(4) == 0x1_0000_0000;
    DivModIs(BigEndian(bytes[..5]), 0x1_0000_0000, BigEndian(bytes[..5][..1]), BigEndian(bytes[1..5]));
  }

  /** The position after `k` more bytes, as the program counts it in 32 bits. */
  function Advance(written: u32, k: nat): u32 {
    (written + k) % F.WORDS
  }

  lemma AdvanceIs(n: nat, k: nat)
    ensures Advance(n % F.WORDS, k) == (n + k) % F.WORDS
  {
    var q, w := n / F.WORDS, n % F.WORDS;
    var h := (w + k) / F.WORDS;
    DivModIs(n + k, F.WORDS, q + h, (w + k) % F.WORDS);
  }

  lemma RelativeIs(encoded: u32, n: nat)
    ensures F.Moved(encoded, Advance(n % F.WORDS, 4), F.WORDS, false) == Relative(encoded, n)
  {
    AdvanceIs(n, 4);
    AdvanceIs(n + 4, 0);
  }

  method ReadOperand(call: Bcj2Cursor, jump: Bcj2Cursor, current: byte, ghost main: seq<byte>) returns (r: Result<u32>)
    requires call != jump && call.Valid() && jump.Valid()
    modifies call, jump
    ensures call.Valid() && jump.Valid()
    ensures var x := Operand(Sources(main, old(call.Rest()), old(jump.Rest())), current);
            && (r.Ok? <==> x.Ok?)
            && (r.Ok? ==> x.value == (r.value, Sources(main, call.Rest(), jump.Rest())))
  {
    if current == 0xe8 {
      r := call.ReadU32();
    } else {
      r := jump.ReadU32();
    }
  }

  /** The part of the loop that deals with a branch. */
  method ConvertBranch(call: Bcj2Cursor, jump: Bcj2Cursor, range: Bcj2Range, previous: byte, current: byte,
                       written: u32, output: seq<byte>, maximum: nat, ghost main: seq<byte>)
    returns (r: Result<(byte, u32, seq<byte>)>)
    requires call != jump && range.input !in {call, jump} && call.Valid() && jump.Valid() && range.Valid()
    requires written == |output| % F.WORDS
    modifies call, jump, range, range.input
    ensures call.Valid() && jump.Valid()
    ensures var x := Convert(Sources(main, old(call.Rest()), old(jump.Rest())), old(range.View()), previous, current,
                             output, maximum);
            && (r.Ok? <==> x.Ok?)
            && (r.Ok? ==>
                  && range.Valid() && r.value.1 == |r.value.2| % F.WORDS
                  && x.value == Turn(Sources(main, call.Rest(), jump.Rest()), range.View(), r.value.0, r.value.2))
  {
    hide DecodeFlag, Operand, Relative, ProbabilityIndex, Advance, F.Moved, F.ToLittle;
    var selected := range.Decode(ProbabilityIndex(previous, current));
    if selected.Err? {
      return Err(selected.error);
    }
    if selected.value == 0 {
      return Ok((current, written, output));
    }
    var encoded := ReadOperand(call, jump, current, main);
    if encoded.Err? {
      return Err(encoded.error);
    }
    RelativeIs(encoded.value, |output|);
    AdvanceIs(|output|, 4);
    var destination := F.Moved(encoded.value, Advance(written, 4), F.WORDS, false);
    if |output| + 4 > maximum {
      return Err(LimitExceeded);
    }
    r := Ok((destination / 0x100_0000, Advance(written, 4), output + F.ToLittle(destination)));
  }

  /** The merging loop. */
  method MergeStreams(main: Bcj2Cursor, call: Bcj2Cursor, jump: Bcj2Cursor, range: Bcj2Range, maximum: nat)
    returns (r: Result<seq<byte>>)
    requires main.Valid() && call.Valid() && jump.Valid() && range.Valid()
    requires main != call && main != jump && call != jump && range.input !in {main, call, jump}
    modifies main, call, jump, range, range.input
    ensures var x := Merge(Sources(old(main.Rest()), old(call.Rest()), old(jump.Rest())), old(range.View()), 0, [],
                           maximum);
            (r.Ok? <==> x.Ok?) && (r.Ok? ==> r.value == x.value)
  {
    hide Merge, Convert, IsBranch, Advance, CoderOk, Bcj2Range.View;
    var output: seq<byte> := [];
    ViewOk(range);
    ghost var whole := Merge(Sources(main.Rest(), call.Rest(), jump.Rest()), range.View(), 0, [], maximum);
    var previous: byte, written: u32 := 0, 0;
    while !main.IsFinished()
      invariant main.Valid() && call.Valid() && jump.Valid() && range.Valid() && CoderOk(range.View())
      invariant whole == Merge(Sources(main.Rest(), call.Rest(), jump.Rest()), range.View(), previous, output, maximum)
      invariant written == |output| % F.WORDS
      decreases |main.bytes| - main.position
    {
      ghost var s := Sources(main.Rest(), call.Rest(), jump.Rest());
      MergeUnfolds(s, range.View(), previous, output, maximum);
      var byte_ := main.ReadByte();
      if |output| + 1 > maximum {
        return Err(LimitExceeded);
      }
      AdvanceIs(|output|, 1);
      output := output + [byte_.value];
      written := Advance(written, 1);
      if !IsBranch(previous, byte_.value) {
        previous := byte_.value;
      } else {
        var turn := ConvertBranch(call, jump, range, previous, byte_.value, written, output, maximum, main.Rest());
        if turn.Err? {
          return Err(turn.error);
        }
        ViewOk(range);
        previous, written, output := turn.value.0, turn.value.1, turn.value.2;
      }
    }
    MergeEnds(Sources(main.Rest(), call.Rest(), jump.Rest()), range.View(), previous, output, maximum);
    if !call.IsFinished() || !jump.IsFinished() {
      return Err(Format);
    }
    r := Ok(output);
  }

  /** `decode_bcj2`. */
  method DecodeStreams(inputs: seq<seq<byte>>, properties: seq<byte>, expected: Option<nat>, maximum: nat)
    returns (r: Result<seq<byte>>)
    ensures var x := DecodeBcj2(inputs, properties, expected, maximum);
            (r.Ok? <==> x.Ok?) && (r.Ok? ==> r.value == x.value)
  {
    hide Merge, CoderOk, Begin, Fresh, Bcj2Range.View;
    if properties != [] || |inputs| != 4 {
      return Err(Format);
    }
    if expected.Some? && expected.value > maximum {
      return Err(LimitExceeded);
    }
    var main := new Bcj2Cursor(inputs[0]);
    var call := new Bcj2Cursor(inputs[1]);
    var jump := new Bcj2Cursor(inputs[2]);
    var range := Bcj2Range.New(inputs[3]);
    if range.Err? {
      return Err(range.error);
    }
    r := MergeStreams(main, call, jump, range.value, maximum);
    if r.Ok? && expected.Some? && |r.value| != expected.value {
      return Err(Format);
    }
  }

  lemma ViewOk(range: Bcj2Range)
    requires range.Valid()
    ensures CoderOk(range.View())
  {
  }

  lemma MergeEnds(s: Sources, c: Coder, previous: byte, out: seq<byte>, maximum: nat)
    requires CoderOk(c) && s.main == []
    ensures Merge(s, c, previous, out, maximum) == if s.call != [] || s.jump != [] then Err(Format) else Ok(out)
  {
  }

  lemma MergeUnfolds(s: Sources, c: Coder, previous: byte, out: seq<byte>, maximum: nat)
    requires CoderOk(c) && s.main != []
    ensures var b, rest, out' := s.main[0], s.(main := s.main[1..]), out + [s.main[0]];
            Merge(s, c, previous, out, maximum)
            == if |out| + 1 > maximum then Err(LimitExceeded)
               else if !IsBranch(previous, b) then Merge(rest, c, b, out', maximum)
               else
                 var x := Convert(rest, c, previous, b, out', maximum);
                 if x.Err? then Err(x.error) else Merge(x.value.s, x.value.c, x.value.previous, x.value.out, maximum)
  {
    hide IsBranch, Convert;
  }
}
