/** Adaptive coding as a table from the names of contexts to probabilities, each learned from its own past. */
module Learning {
  import opened Prelude
  import opened LzmaRange

  /** A decision in a context, or a bit without one. */
  datatype Event<C> = Coded(c: C, b: bit) | Raw(b: bit)

  /** What a context has learned: half and half at first, then adapted to each of its own decisions in turn. */
  function Learned<C(==)>(past: seq<Event<C>>, c: C): Prob {
    if past == [] then PROB_INITIAL
    else
      var last, before := past[|past| - 1], Learned(past[..|past| - 1], c);
      if last.Coded? && last.c == c then Adapt(before, last.b) else before
  }

  /** The decisions of the events that follow a past. */
  function Weighed<C(==)>(past: seq<Event<C>>, events: seq<Event<C>>): (ds: seq<Decision>)
    ensures |ds| == |events|
    decreases |events|
  {
    if events == [] then []
    else
      var e := events[0];
      [if e.Coded? then Adaptive(Learned(past, e.c), e.b) else Direct(e.b)] + Weighed(past + [e], events[1..])
  }

  lemma LearnedNext<C>(past: seq<Event<C>>, e: Event<C>, c: C)
    ensures Learned(past + [e], c) ==
            if e.Coded? && e.c == c then Adapt(Learned(past, c), e.b) else Learned(past, c)
  {
    assert (past + [e])[..|past|] == past;
  }

  lemma {:induction false} WeighedAppend<C>(past: seq<Event<C>>, a: seq<Event<C>>, b: seq<Event<C>>)
    ensures Weighed(past, a + b) == Weighed(past, a) + Weighed(past + a, b)
    decreases |a|
  {
    hide Learned;
    if a == [] {
      assert a + b == b && past + a == past;
    } else {
      assert (a + b)[0] == a[0] && (a + b)[1..] == a[1..] + b;
      WeighedAppend(past + [a[0]], a[1..], b);
      assert past + [a[0]] + a[1..] == past + a;
    }
  }
}
