/** What BCJ2 means: which bytes are branches, which of them learn together, and where their targets go. */
module Bcj2Laws {
  import opened Prelude
  import opened LzmaRange
  import opened Bcj2Filter
  import opened Learning
  import F = BranchFilters
  import T = BranchTargets

  /** CALL, JMP, and the two-byte conditional jumps of x86. */
  lemma BranchBytes(previous: byte, current: byte)
    ensures IsBranch(previous, current) <==>
              current == 0xe8 || current == 0xe9 || (previous == 0x0f && 0x80 <= current <= 0x8f)
  {
  }

  /** What the flag of a branch depends on: for a call the byte before it, for a jump only that it is one. */
  datatype Context = Call(previous: byte) | Jump | Conditional

  function ContextOf(previous: byte, current: byte): Context {
    if current == 0xe8 then Call(previous) else if current == 0xe9 then Jump else Conditional
  }

  lemma FlagsLearnTogether(previous: byte, current: byte, previous': byte, current': byte)
    ensures ProbabilityIndex(previous, current) == ProbabilityIndex(previous', current') <==>
              ContextOf(previous, current) == ContextOf(previous', current')
  {
  }

  // ---- the streams of a program ----

  function Mains(tokens: seq<Token>): seq<byte> {
    if tokens == [] then [] else [tokens[0].b] + Mains(tokens[1..])
  }

  /** The address behind a branch plus its displacement: where it goes, in four big-endian bytes. */
  function Goal(n: nat, displacement: u32): seq<byte> {
    F.ToBig((n + displacement) % 0x1_0000_0000)
  }

  /** Where the converted calls go, or the other converted branches, when `n` bytes come before. */
  function Goals(tokens: seq<Token>, n: nat, calls: bool): seq<byte> {
    if tokens == [] then []
    else
      var t := tokens[0];
      var end := n + |Plain(t)|;
      (if t.target.Some? && (t.b == 0xe8) == calls then Goal(end, t.target.value) else [])
      + Goals(tokens[1..], end, calls)
  }

  /** One flag for each branch of the program, in its context. */
  function Flags(tokens: seq<Token>, previous: byte): seq<Event<Context>> {
    if tokens == [] then []
    else
      var t := tokens[0];
      (if IsBranch(previous, t.b) then [Coded(ContextOf(previous, t.b), Flag(t))] else [])
      + Flags(tokens[1..], Last(t))
  }

  /** The table holds what each context has learned. */
  ghost predicate Learns(probs: Probs, past: seq<Event<Context>>) {
    forall previous: byte, current: byte ::
      probs[ProbabilityIndex(previous, current)] == Learned(past, ContextOf(previous, current))
  }

  lemma FreshLearns()
    ensures Learns(Fresh(), [])
  {
  }

  lemma FlagLearns(probs: Probs, past: seq<Event<Context>>, previous: byte, current: byte, b: bit)
    requires Learns(probs, past)
    ensures var i := ProbabilityIndex(previous, current);
            Learns(probs[i := Adapt(probs[i], b)], past + [Coded(ContextOf(previous, current), b)])
  {
    hide Adapt, Learned, ProbabilityIndex, ContextOf;
    forall p: byte, c: byte
      ensures probs[ProbabilityIndex(previous, current) := Adapt(probs[ProbabilityIndex(previous, current)], b)]
                [ProbabilityIndex(p, c)]
           == Learned(past + [Coded(ContextOf(previous, current), b)], ContextOf(p, c))
    {
      FlagsLearnTogether(previous, current, p, c);
      LearnedNext(past, Coded(ContextOf(previous, current), b), ContextOf(p, c));
    }
  }

  lemma GoalIs(target: u32, n: nat)
    ensures F.ToBig(Absolute(target, n)) == Goal(n + 4, target)
  {
    T.MovedIs(target, n + 4, F.WORDS);
  }

  /** The streams of a program: its bytes, the places its converted branches go to, and a flag for every branch,
      coded with what branches of its context have shown before. */
  lemma {:induction false} StreamsAre(tokens: seq<Token>, previous: byte, n: nat, probs: Probs,
                                      past: seq<Event<Context>>)
    requires Legal(tokens, previous) && Learns(probs, past)
    ensures var e := Encode(tokens, previous, n, probs);
            && e.s == Sources(Mains(tokens), Goals(tokens, n, true), Goals(tokens, n, false))
            && e.ds == Weighed(past, Flags(tokens, previous))
    decreases |tokens|
  {
    hide Learns, Learned, Adapt, IsBranch, ProbabilityIndex, ContextOf, Absolute, Goal;
    if tokens != [] {
      var t := tokens[0];
      if !IsBranch(previous, t.b) {
        StreamsAre(tokens[1..], t.b, n + 1, probs, past);
        assert Goals(tokens, n, true) == Goals(tokens[1..], n + 1, true);
        assert Goals(tokens, n, false) == Goals(tokens[1..], n + 1, false);
        assert Flags(tokens, previous) == Flags(tokens[1..], t.b);
      } else {
        var i, event := ProbabilityIndex(previous, t.b), Coded(ContextOf(previous, t.b), Flag(t));
        var probs' := probs[i := Adapt(probs[i], Flag(t))];
        FlagLearns(probs, past, previous, t.b, Flag(t));
        FlagKnown(probs, past, previous, t.b);
        StreamsAre(tokens[1..], Last(t), n + |Plain(t)|, probs', past + [event]);
        var rest := Flags(tokens[1..], Last(t));
        assert Flags(tokens, previous) == [event] + rest;
        assert ([event] + rest)[1..] == rest;
        if t.target.Some? { GoalIs(t.target.value, n + 1); }
      }
    }
  }

  lemma FlagKnown(probs: Probs, past: seq<Event<Context>>, previous: byte, current: byte)
    requires Learns(probs, past)
    ensures probs[ProbabilityIndex(previous, current)] == Learned(past, ContextOf(previous, current))
  {
  }
}
