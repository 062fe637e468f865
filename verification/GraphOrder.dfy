/** Scheduling coders: Kahn's algorithm succeeds exactly on acyclic graphs. */
module GraphOrder {
  import opened Prelude

  /** A dependency: `source` has to run before `target`. */
  datatype Edge = Edge(source: nat, target: nat)

  predicate Within(edges: seq<Edge>, n: nat) {
    forall e | e in edges :: e.source < n && e.target < n
  }

  ghost predicate IsPath(edges: seq<Edge>, p: seq<nat>) {
    forall i, j | 0 <= i < j < |p| && j == i + 1 :: Edge(p[i], p[j]) in edges
  }

  ghost predicate IsCycle(edges: seq<Edge>, p: seq<nat>) {
    |p| >= 2 && IsPath(edges, p) && p[0] == p[|p| - 1]
  }

  ghost predicate Acyclic(edges: seq<Edge>) {
    forall p :: !IsCycle(edges, p)
  }

  function Position(order: seq<nat>, v: nat): (i: nat)
    requires v in order
    ensures i < |order| && order[i] == v
  {
    if order[0] == v then 0 else 1 + Position(order[1..], v)
  }

  /** Every coder once, and every dependency forward. */
  ghost predicate IsOrder(edges: seq<Edge>, n: nat, order: seq<nat>) {
    && NoRepeats(order) && |order| == n
    && (forall v | 0 <= v < n :: v in order)
    && (forall v | v in order :: v < n)
    && (forall e | e in edges && e.source < n && e.target < n :: Position(order, e.source) < Position(order, e.target))
  }

  lemma {:induction false} PositionsGrow(edges: seq<Edge>, n: nat, order: seq<nat>, p: seq<nat>)
    requires Within(edges, n) && IsOrder(edges, n, order) && |p| >= 2 && IsPath(edges, p)
    ensures p[0] < n && p[|p| - 1] < n
    ensures Position(order, p[0]) < Position(order, p[|p| - 1])
  {
    assert Edge(p[0], p[1]) in edges;
    if |p| > 2 {
      PositionsGrow(edges, n, order, p[1..]);
    }
  }

  /** A graph with an order has no cycle. */
  lemma OrderedIsAcyclic(edges: seq<Edge>, n: nat, order: seq<nat>)
    requires Within(edges, n) && IsOrder(edges, n, order)
    ensures Acyclic(edges)
  {
    forall p
      ensures !IsCycle(edges, p)
    {
      if IsCycle(edges, p) {
        PositionsGrow(edges, n, order, p);
      }
    }
  }

  /** A node that is not done. */
  ghost predicate Stuck(edges: seq<Edge>, n: nat, done: seq<nat>, v: nat) {
    v < n && v !in done
  }

  /** Every node that is not done waits for another; such nodes lie behind a cycle. */
  ghost predicate AllWait(edges: seq<Edge>, n: nat, done: seq<nat>) {
    forall v | Stuck(edges, n, done, v) ::
      exists s :: Edge(s, v) in edges && Stuck(edges, n, done, s)
  }

  /** A walk against the edges. */
  ghost predicate IsBackwards(edges: seq<Edge>, w: seq<nat>) {
    forall i, j | 0 <= i < j < |w| && j == i + 1 :: Edge(w[j], w[i]) in edges
  }

  lemma WaitsFor(edges: seq<Edge>, n: nat, done: seq<nat>, v: nat) returns (s: nat)
    requires AllWait(edges, n, done) && Stuck(edges, n, done, v)
    ensures Edge(s, v) in edges && Stuck(edges, n, done, s)
  {
    hide Stuck;
    s :| Edge(s, v) in edges && Stuck(edges, n, done, s);
  }

  lemma {:induction false} WalkBack(edges: seq<Edge>, n: nat, done: seq<nat>, v: nat, k: nat) returns (w: seq<nat>)
    requires AllWait(edges, n, done) && Stuck(edges, n, done, v)
    ensures |w| == k + 1 && w[0] == v && IsBackwards(edges, w)
    ensures forall i | 0 <= i < |w| :: w[i] < n
    decreases k
  {
    hide AllWait;
    if k == 0 {
      w := [v];
    } else {
      var s := WaitsFor(edges, n, done, v);
      var tail := WalkBack(edges, n, done, s, k - 1);
      w := [v] + tail;
    }
  }

  lemma RepeatExists(w: seq<nat>, n: nat) returns (i: nat, j: nat)
    requires |w| > n && forall k | 0 <= k < |w| :: w[k] < n
    ensures i < j < |w| && w[i] == w[j]
  {
    if NoRepeats(w) {
      PigeonHole(w, n);
      assert false;
    }
    i, j :| 0 <= i < j < |w| && w[i] == w[j];
  }

  /** If every unfinished node waits for an unfinished node, there is a cycle. */
  lemma StuckHasCycle(edges: seq<Edge>, n: nat, done: seq<nat>, v: nat)
    requires AllWait(edges, n, done) && Stuck(edges, n, done, v)
    ensures !Acyclic(edges)
  {
    hide AllWait, Stuck;
    var w := WalkBack(edges, n, done, v, n);
    var i, j := RepeatExists(w, n);
    var p := seq(j - i + 1, k requires 0 <= k <= j - i => w[j - k]);
    forall a, b | 0 <= a < b < |p| && b == a + 1
      ensures Edge(p[a], p[b]) in edges
    {
      assert p[a] == w[j - a] && p[b] == w[j - b];
    }
    assert IsCycle(edges, p);
  }

  // ---- Kahn's queue ----

  /** How many dependencies of `v` come from coders not yet run. */
  function Waiting(edges: seq<Edge>, done: seq<nat>, v: nat): (k: nat)
    ensures k <= |edges|
  {
    if edges == [] then 0
    else
      var e := edges[|edges| - 1];
      Waiting(edges[..|edges| - 1], done, v) + if e.target == v && e.source !in done then 1 else 0
  }

  /** How many dependencies of `v` come from `coder`. */
  function Released(edges: seq<Edge>, coder: nat, v: nat): nat {
    if edges == [] then 0
    else
      var e := edges[|edges| - 1];
      Released(edges[..|edges| - 1], coder, v) + if e.target == v && e.source == coder then 1 else 0
  }

  lemma {:induction false} RunningReleases(edges: seq<Edge>, done: seq<nat>, coder: nat, v: nat)
    requires coder !in done
    ensures Waiting(edges, done, v) == Waiting(edges, done + [coder], v) + Released(edges, coder, v)
  {
    if edges != [] {
      RunningReleases(edges[..|edges| - 1], done, coder, v);
    }
  }

  lemma {:induction false} ReleasedGrows(edges: seq<Edge>, k: nat, coder: nat, v: nat)
    requires k <= |edges|
    ensures Released(edges[..k], coder, v) <= Released(edges, coder, v)
    decreases |edges|
  {
    if k < |edges| {
      var init := edges[..|edges| - 1];
      assert init[..k] == edges[..k];
      ReleasedGrows(init, k, coder, v);
    } else {
      assert edges[..k] == edges;
    }
  }

  lemma {:induction false} NothingWaits(edges: seq<Edge>, done: seq<nat>, v: nat)
    ensures Waiting(edges, done, v) == 0 <==> forall e | e in edges && e.target == v :: e.source in done
  {
    if edges != [] {
      var init, e := edges[..|edges| - 1], edges[|edges| - 1];
      NothingWaits(init, done, v);
      assert edges == init + [e];
    }
  }

  /** Each entry of the queue comes after everything it depends on. */
  ghost predicate Sourced(edges: seq<Edge>, ready: seq<nat>, cursor: nat)
    requires cursor <= |ready|
  {
    forall i, e | 0 <= i < |ready| && e in edges && e.target == ready[i] :: e.source in ready[..Min(i, cursor)]
  }

  /** The queue holds exactly the coders with no dependency left, each once. */
  ghost predicate QueueOk(edges: seq<Edge>, n: nat, indegree: seq<nat>, ready: seq<nat>, cursor: nat) {
    && |indegree| == n && cursor <= |ready|
    && NoRepeats(ready) && (forall v | v in ready :: v < n)
    && (forall v | 0 <= v < n :: v in ready <==> indegree[v] == 0)
    && Sourced(edges, ready, cursor)
  }

  ghost predicate CountsOk(edges: seq<Edge>, indegree: seq<nat>, done: seq<nat>) {
    forall v | 0 <= v < |indegree| :: indegree[v] == Waiting(edges, done, v)
  }

  /** The counts while the edges before `k` have been released by `coder`. */
  ghost predicate Partly(edges: seq<Edge>, indegree: seq<nat>, done: seq<nat>, coder: nat, k: nat)
    requires k <= |edges|
  {
    forall v | 0 <= v < |indegree| ::
      indegree[v] + Released(edges[..k], coder, v) == Waiting(edges, done, v)
  }

  lemma PartlyStarts(edges: seq<Edge>, indegree: seq<nat>, done: seq<nat>, coder: nat)
    requires CountsOk(edges, indegree, done)
    ensures Partly(edges, indegree, done, coder, 0)
  {
  }

  lemma PartlyEnds(edges: seq<Edge>, indegree: seq<nat>, done: seq<nat>, coder: nat)
    requires Partly(edges, indegree, done, coder, |edges|) && coder !in done
    ensures CountsOk(edges, indegree, done + [coder])
  {
    assert edges[..|edges|] == edges;
    forall v | 0 <= v < |indegree|
      ensures indegree[v] == Waiting(edges, done + [coder], v)
    {
      RunningReleases(edges, done, coder, v);
    }
  }

  lemma PartlyStep(edges: seq<Edge>, indegree: seq<nat>, done: seq<nat>, coder: nat, k: nat)
    requires k < |edges| && Partly(edges, indegree, done, coder, k) && Within(edges, |indegree|) && coder !in done
    ensures edges[k].target < |indegree|
    ensures edges[k].source != coder ==> Partly(edges, indegree, done, coder, k + 1)
    ensures edges[k].source == coder ==>
              && indegree[edges[k].target] >= 1
              && Partly(edges, indegree[edges[k].target := indegree[edges[k].target] - 1], done, coder, k + 1)
  {
    var e := edges[k];
    assert e in edges;
    assert edges[..k + 1][..k] == edges[..k];
    if e.source == coder {
      RunningReleases(edges, done, coder, e.target);
      ReleasedGrows(edges, k + 1, coder, e.target);
    }
  }

  /** A coder whose last dependency was just released waits for nothing. */
  lemma ReleasedLast(edges: seq<Edge>, indegree: seq<nat>, done: seq<nat>, coder: nat, k: nat, v: nat)
    requires k <= |edges| && Partly(edges, indegree, done, coder, k) && coder !in done
    requires v < |indegree| && indegree[v] == 0
    ensures forall e | e in edges && e.target == v :: e.source in done + [coder]
  {
    RunningReleases(edges, done, coder, v);
    ReleasedGrows(edges, k, coder, v);
    NothingWaits(edges, done + [coder], v);
  }

  // ---- the scheduler ----

  /** A bound pair of ports: the input is fed by the output. */
  datatype BindPair = BindPair(input: nat, output: nat)

  predicate PairsWithin(pairs: seq<BindPair>, inputs: nat, outputs: nat) {
    forall p | p in pairs :: p.input < inputs && p.output < outputs
  }

  function EdgesOf(inputOwners: seq<nat>, outputOwners: seq<nat>, pairs: seq<BindPair>): (edges: seq<Edge>)
    requires PairsWithin(pairs, |inputOwners|, |outputOwners|)
    ensures |edges| == |pairs|
    ensures forall k | 0 <= k < |pairs| ::
              pairs[k] in pairs && edges[k] == Edge(outputOwners[pairs[k].output], inputOwners[pairs[k].input])
  {
    seq(|pairs|, k requires 0 <= k < |pairs| => Edge(outputOwners[pairs[k].output], inputOwners[pairs[k].input]))
  }

  predicate Owned(owners: seq<nat>, n: nat) {
    forall i | 0 <= i < |owners| :: owners[i] < n
  }

  lemma EdgesWithin(n: nat, inputOwners: seq<nat>, outputOwners: seq<nat>, pairs: seq<BindPair>)
    requires PairsWithin(pairs, |inputOwners|, |outputOwners|) && Owned(inputOwners, n) && Owned(outputOwners, n)
    ensures Within(EdgesOf(inputOwners, outputOwners, pairs), n)
  {
  }

  method BuildEdges(n: nat, inputOwners: seq<nat>, outputOwners: seq<nat>, pairs: seq<BindPair>)
    returns (r: Result<(seq<Edge>, seq<nat>)>)
    requires Owned(inputOwners, n) && Owned(outputOwners, n)
    ensures r.Ok? <==> PairsWithin(pairs, |inputOwners|, |outputOwners|)
    ensures r.Ok? ==> r.value.0 == EdgesOf(inputOwners, outputOwners, pairs)
    ensures r.Ok? ==> |r.value.1| == n && CountsOk(r.value.0, r.value.1, [])
  {
    var indegree: seq<nat> := seq(n, i => 0);
    var edges: seq<Edge> := [];
    for k := 0 to |pairs|
      invariant |indegree| == n && |edges| == k && CountsOk(edges, indegree, [])
      invariant PairsWithin(pairs[..k], |inputOwners|, |outputOwners|)
      invariant edges == EdgesOf(inputOwners, outputOwners, pairs[..k])
    {
      var pair := pairs[k];
      assert pairs[..k + 1] == pairs[..k] + [pair];
      assert pair in pairs;
      if pair.output >= |outputOwners| || pair.input >= |inputOwners| {
        return Err(Format);
      }
      var e := Edge(outputOwners[pair.output], inputOwners[pair.input]);
      indegree := indegree[e.target := indegree[e.target] + 1];
      assert (edges + [e])[..k] == edges;
      edges := edges + [e];
    }
    assert pairs[..|pairs|] == pairs;
    r := Ok((edges, indegree));
  }

  method CollectReady(ghost edges: seq<Edge>, indegree: seq<nat>) returns (ready: seq<nat>)
    requires CountsOk(edges, indegree, [])
    ensures QueueOk(edges, |indegree|, indegree, ready, 0)
  {
    ready := [];
    for v := 0 to |indegree|
      invariant NoRepeats(ready)
      invariant forall u | u in ready :: u < v
      invariant forall u | 0 <= u < v :: u in ready <==> indegree[u] == 0
    {
      if indegree[v] == 0 {
        assert forall i | 0 <= i < |ready| :: ready[i] in ready;
        ready := ready + [v];
      }
    }
    forall i | 0 <= i < |ready|
      ensures forall e | e in edges :: e.target != ready[i]
    {
      assert ready[i] in ready;
      NothingWaits(edges, [], ready[i]);
    }
  }

  /** The pass over all edges after `coder` has run, one unit of work for each. */
  method Release(edges: seq<Edge>, n: nat, degrees: seq<nat>, queue: seq<nat>, cursor: nat, work: nat)
    returns (indegree: seq<nat>, ready: seq<nat>, work': nat)
    requires Within(edges, n) && cursor < |queue| && QueueOk(edges, n, degrees, queue, cursor)
    requires CountsOk(edges, degrees, queue[..cursor])
    ensures QueueOk(edges, n, indegree, ready, cursor + 1) && queue <= ready
    ensures CountsOk(edges, indegree, queue[..cursor + 1])
    ensures work' == work + |edges|
  {
    hide CountsOk, Partly, Sourced;
    var coder := queue[cursor];
    ghost var done := queue[..cursor];
    assert coder !in done;
    indegree, ready, work' := degrees, queue, work;
    PartlyStarts(edges, indegree, done, coder);
    SourcedNext(edges, ready, cursor);
    for k := 0 to |edges|
      invariant work' == work + k && queue <= ready
      invariant QueueOk(edges, n, indegree, ready, cursor + 1)
      invariant Partly(edges, indegree, done, coder, k)
    {
      work' := work' + 1;
      var e := edges[k];
      PartlyStep(edges, indegree, done, coder, k);
      if e.source == coder {
        indegree := indegree[e.target := indegree[e.target] - 1];
        if indegree[e.target] == 0 {
          ReleasedLast(edges, indegree, done, coder, k + 1, e.target);
          assert done + [coder] == ready[..cursor + 1];
          SourcedPush(edges, ready, cursor + 1, e.target);
          ready := ready + [e.target];
        }
      }
    }
    PartlyEnds(edges, indegree, done, coder);
    assert done + [coder] == queue[..cursor + 1];
  }

  lemma SourcedNext(edges: seq<Edge>, ready: seq<nat>, cursor: nat)
    requires cursor < |ready| && Sourced(edges, ready, cursor)
    ensures Sourced(edges, ready, cursor + 1)
  {
    forall i, e | 0 <= i < |ready| && e in edges && e.target == ready[i]
      ensures e.source in ready[..Min(i, cursor + 1)]
    {
      var j :| 0 <= j < Min(i, cursor) && ready[j] == e.source;
      assert ready[..Min(i, cursor + 1)][j] == e.source;
    }
  }

  lemma SourcedPush(edges: seq<Edge>, ready: seq<nat>, cursor: nat, v: nat)
    requires cursor <= |ready| && Sourced(edges, ready, cursor)
    requires forall e | e in edges && e.target == v :: e.source in ready[..cursor]
    ensures Sourced(edges, ready + [v], cursor)
  {
    var next := ready + [v];
    forall i, e | 0 <= i < |next| && e in edges && e.target == next[i]
      ensures e.source in next[..Min(i, cursor)]
    {
      if i < |ready| {
        assert e.source in ready[..Min(i, cursor)];
        assert next[..Min(i, cursor)] == ready[..Min(i, cursor)];
      } else {
        assert next[..Min(i, cursor)] == ready[..cursor];
      }
    }
  }

  /** `topological_order`: exactly the acyclic graphs have one; it costs a unit per coder, and per coder and edge. */
  method TopologicalOrder(n: nat, inputOwners: seq<nat>, outputOwners: seq<nat>, pairs: seq<BindPair>)
    returns (r: Result<seq<nat>>, work: nat)
    requires Owned(inputOwners, n) && Owned(outputOwners, n)
    ensures r.Ok? <==>
            PairsWithin(pairs, |inputOwners|, |outputOwners|) && Acyclic(EdgesOf(inputOwners, outputOwners, pairs))
    ensures r.Ok? ==> IsOrder(EdgesOf(inputOwners, outputOwners, pairs), n, r.value)
    ensures r.Ok? ==> work == n + n * |pairs|
  {
    hide QueueOk, CountsOk, Owned, EdgesOf, Acyclic, IsOrder;
    work := 0;
    var built := BuildEdges(n, inputOwners, outputOwners, pairs);
    if built.Err? {
      return Err(built.error), work;
    }
    EdgesWithin(n, inputOwners, outputOwners, pairs);
    var (edges, indegree) := built.value;
    var ready := CollectReady(edges, indegree);
    var order: seq<nat> := [];
    var cursor: nat := 0;
    QueueFits(edges, n, indegree, ready, cursor);
    while cursor < |ready|
      invariant cursor <= |ready| <= n && order == ready[..cursor]
      invariant QueueOk(edges, n, indegree, ready, cursor) && CountsOk(edges, indegree, ready[..cursor])
      invariant work == cursor + cursor * |edges|
      decreases n - cursor
    {
      order := order + [ready[cursor]];
      ghost var queue := ready;
      indegree, ready, work := Release(edges, n, indegree, ready, cursor, work + 1);
      QueueFits(edges, n, indegree, ready, cursor + 1);
      assert queue[..cursor + 1] == ready[..cursor + 1];
      assert (cursor + 1) * |edges| == cursor * |edges| + |edges|;
      cursor := cursor + 1;
    }
    assert ready[..cursor] == ready;
    if |order| != n {
      Unfinished(edges, n, indegree, order);
      return Err(Format), work;
    }
    Finished(edges, n, indegree, order);
    OrderedIsAcyclic(edges, n, order);
    r := Ok(order);
  }

  lemma QueueFits(edges: seq<Edge>, n: nat, indegree: seq<nat>, ready: seq<nat>, cursor: nat)
    requires QueueOk(edges, n, indegree, ready, cursor)
    ensures |ready| <= n && cursor <= |ready| && |indegree| == n
  {
    forall k | 0 <= k < |ready|
      ensures ready[k] < n
    {
      assert ready[k] in ready;
    }
    PigeonHole(ready, n);
  }

  /** The queue ran dry too early: every coder left waits for another one left. */
  lemma Unfinished(edges: seq<Edge>, n: nat, indegree: seq<nat>, order: seq<nat>)
    requires Within(edges, n) && QueueOk(edges, n, indegree, order, |order|) && CountsOk(edges, indegree, order)
    requires |order| != n
    ensures !Acyclic(edges)
  {
    QueueFits(edges, n, indegree, order, |order|);
    hide Acyclic, Sourced;
    forall v | Stuck(edges, n, order, v)
      ensures exists s :: Edge(s, v) in edges && Stuck(edges, n, order, s)
    {
      NothingWaits(edges, order, v);
      var e :| e in edges && e.target == v && e.source !in order;
      assert Edge(e.source, v) in edges && Stuck(edges, n, order, e.source);
    }
    var v := MissingFrom(order, n);
    StuckHasCycle(edges, n, order, v);
  }

  /** Fewer than `n` different numbers miss one below `n`. */
  lemma {:induction false} MissingFrom(s: seq<nat>, n: nat) returns (v: nat)
    requires |s| < n
    ensures v < n && v !in s
  {
    if forall u | 0 <= u < n :: u in s {
      var places := seq(n, u requires 0 <= u < n => Index(s, u));
      PigeonHole(places, |s|);
      assert false;
    }
    v :| 0 <= v < n && v !in s;
  }

  ghost function Index(s: seq<nat>, u: nat): (i: nat)
    ensures u in s ==> i < |s| && s[i] == u
  {
    if u in s then Position(s, u) else 0
  }

  lemma Finished(edges: seq<Edge>, n: nat, indegree: seq<nat>, order: seq<nat>)
    requires Within(edges, n) && QueueOk(edges, n, indegree, order, |order|) && |order| == n
    ensures IsOrder(edges, n, order)
  {
    forall v | 0 <= v < n
      ensures v in order
    {
      if v !in order {
        Extended(order, v, n);
      }
    }
    forall e | e in edges && e.source < n && e.target < n
      ensures Position(order, e.source) < Position(order, e.target)
    {
      var i := Position(order, e.target);
      assert e.source in order[..Min(i, |order|)];
      var j :| 0 <= j < i && order[j] == e.source;
    }
  }

  lemma Extended(order: seq<nat>, v: nat, n: nat)
    requires NoRepeats(order) && v !in order && v < n && forall u | u in order :: u < n
    ensures |order| < n
  {
    var more := order + [v];
    forall k | 0 <= k < |more|
      ensures more[k] < n
    {
      if k < |order| { assert order[k] in order; }
    }
    PigeonHole(more, n);
  }
}
