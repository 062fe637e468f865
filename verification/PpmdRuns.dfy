/** What gluing makes of the free blocks: maximal runs, each cut into pieces of exactly their class. */
module PpmdRuns {
  import opened Prelude
  import opened PpmdTiling
  import opened PpmdLists
  import opened PpmdBooks
  import opened PpmdGlue

  // ---- merging ----

  /** The block ends where no ring block starts, or at one it may not swallow. */
  predicate Settled(blocks: map<nat, nat>, ring: seq<nat>, b: nat) {
    && b in blocks
    && var e := b + UNIT * blocks[b];
       e in ring && e in blocks ==> blocks[b] + blocks[e] >= 0x1_0000
  }

  ghost predicate FirstSettled(blocks: map<nat, nat>, ring: seq<nat>, k: nat)
    requires k <= |ring|
  {
    forall i | 0 <= i < k :: Settled(blocks, ring, ring[i])
  }

  lemma SettledJoin(t: Tiling, ring: seq<nat>, j: nat, b: nat, d: nat)
    requires Distinct(ring) && j < |ring| && CanJoin(t, b) && ring[j] == b + UNIT * t.blocks[b]
    requires Settled(t.blocks, ring, d) && d != b && d != ring[j] && b != ring[j]
    ensures Settled(Join(t, b).blocks, Without(ring, j), d)
  {
    WithoutElements(ring, j);
    hide Distinct, Elements;
    var w := Without(ring, j);
    assert forall x | x in w :: x in ring && x != ring[j];
  }

  /** Merging one more block leaves the blocks already visited settled. */
  lemma JoinKeepsSettled(t: Tiling, ring: seq<nat>, k: nat, j: nat)
    requires Distinct(ring) && k < |ring| && j < |ring| && j != k && ring[k] in t.blocks && ring[j] in t.blocks
    requires ring[j] == ring[k] + UNIT * t.blocks[ring[k]] && FirstSettled(t.blocks, ring, k)
    ensures CanJoin(t, ring[k])
    ensures var k' := if j < k then k - 1 else k;
            k' <= |Without(ring, j)| && FirstSettled(Join(t, ring[k]).blocks, Without(ring, j), k')
  {
    hide Settled, Join;
    var k', w := if j < k then k - 1 else k, Without(ring, j);
    forall i | 0 <= i < k'
      ensures Settled(Join(t, ring[k]).blocks, w, w[i])
    {
      var i' := if i < j then i else i + 1;
      assert w[i] == ring[i'];
      SettledJoin(t, ring, j, ring[k], ring[i']);
    }
  }

  lemma NowSettled(blocks: map<nat, nat>, ring: seq<nat>, k: nat)
    requires k < |ring| && FirstSettled(blocks, ring, k) && Settled(blocks, ring, ring[k])
    ensures FirstSettled(blocks, ring, k + 1)
  {
    hide Settled;
  }

  lemma ScannedDistinct(s: seq<byte>, g: Books, ring: seq<nat>, a: Area, base: nat)
    requires Scanning(s, g, ring, a, base)
    ensures Distinct(ring)
  {
  }

  // ---- the whole of gluing, over lists and blocks ----

  /** A free list emptied into the ring, each block to its front. */
  function Pushed(ring: seq<nat>, list: seq<nat>): seq<nat>
    decreases |list|
  {
    if list == [] then ring else Pushed([list[0]] + ring, list[1..])
  }

  /** All lists from class `i` on, one after the other. */
  function Gathered(ring: seq<nat>, lists: FreeLists, i: nat): seq<nat>
    requires i <= CLASSES
    decreases CLASSES - i
  {
    if i == CLASSES then ring else Gathered(Pushed(ring, lists[i]), lists, i + 1)
  }

  lemma {:induction false} GatheredLater(ring: seq<nat>, lists: FreeLists, lists': FreeLists, i: nat)
    requires i <= CLASSES && forall j | i <= j < CLASSES :: lists[j] == lists'[j]
    ensures Gathered(ring, lists, i) == Gathered(ring, lists', i)
    decreases CLASSES - i
  {
    if i < CLASSES { GatheredLater(Pushed(ring, lists[i]), lists, lists', i + 1); }
  }

  /** One more block of class `i` in the ring. */
  lemma GatheredOne(ring: seq<nat>, lists: FreeLists, i: nat)
    requires i < CLASSES && lists[i] != []
    ensures Gathered(ring, lists, i) == Gathered([lists[i][0]] + ring, lists[i := lists[i][1..]], i)
  {
    GatheredLater(Pushed(ring, lists[i]), lists, lists[i := lists[i][1..]], i + 1);
  }

  /** An empty list adds nothing. */
  lemma GatheredNone(ring: seq<nat>, lists: FreeLists, i: nat)
    requires i < CLASSES && lists[i] == []
    ensures Gathered(ring, lists, i) == Gathered(ring, lists, i + 1)
  {
  }

  lemma GatheredDone(ring: seq<nat>, lists: FreeLists)
    ensures Gathered(ring, lists, CLASSES) == ring
  {
  }

  function Position(ring: seq<nat>, e: nat): (j: nat)
    requires e in ring
    ensures j < |ring| && ring[j] == e
  {
    if ring[0] == e then 0 else 1 + Position(ring[1..], e)
  }

  datatype Scan = Scan(t: Tiling, ring: seq<nat>)

  /** The ring block behind `ring[k]`, if it may be swallowed. */
  predicate Swallows(t: Tiling, ring: seq<nat>, k: nat)
    requires k < |ring|
  {
    && ring[k] in t.blocks
    && var e := ring[k] + UNIT * t.blocks[ring[k]];
       e in ring && e in t.blocks && Position(ring, e) != k && t.blocks[ring[k]] + t.blocks[e] < 0x1_0000
  }

  /** From position `k` on, every ring block swallows its free neighbours, as long as lengths stay 16-bit numbers. */
  function Merged(t: Tiling, ring: seq<nat>, k: nat): Scan
    requires k <= |ring|
    decreases |ring|, |ring| - k
  {
    if k == |ring| then Scan(t, ring)
    else if Swallows(t, ring, k) then
      var j := Position(ring, ring[k] + UNIT * t.blocks[ring[k]]);
      Merged(Join(t, ring[k]), Without(ring, j), if j < k then k - 1 else k)
    else Merged(t, ring, k + 1)
  }

  lemma MergedOne(t: Tiling, ring: seq<nat>, k: nat)
    requires k < |ring| && ring[k] in t.blocks && t.blocks[ring[k]] >= 1
    requires var e := ring[k] + UNIT * t.blocks[ring[k]];
             e in ring && e in t.blocks && t.blocks[ring[k]] + t.blocks[e] < 0x1_0000
    ensures var j := Position(ring, ring[k] + UNIT * t.blocks[ring[k]]);
            Merged(t, ring, k) == Merged(Join(t, ring[k]), Without(ring, j), if j < k then k - 1 else k)
  {
    hide Join, Without;
  }

  lemma MergedNext(t: Tiling, ring: seq<nat>, k: nat)
    requires k < |ring| && ring[k] in t.blocks
    requires var e := ring[k] + UNIT * t.blocks[ring[k]];
             e in ring && e in t.blocks ==> t.blocks[ring[k]] + t.blocks[e] >= 0x1_0000
    ensures Merged(t, ring, k) == Merged(t, ring, k + 1)
  {
  }

  /** A run cut into pieces of 128 units, then into one or two of exactly their class, each put in front of its list. */
  function Dealt(g: Books, b: nat, units: nat): (r: Books)
    requires b in g.t.blocks && g.t.blocks[b] == units >= 1
    decreases units
  {
    if units > 128 then Dealt(Attach(g.(t := Split(g.t, b, 128)), CLASSES - 1, b), b + UNIT * 128, units - 128)
    else
      var i := ClassFor(units);
      if Units(i) == units then Attach(g, i, b) else DealtTwo(g, b, i - 1)
  }

  /** A run cut behind its first piece of class `i`; what is left is at most three units. */
  function DealtTwo(g: Books, b: nat, i: nat): Books
    requires i < CLASSES && CanSplit(g.t, b, Units(i)) && g.t.blocks[b] <= Units(i) + 3
  {
    var k := Units(i);
    Attach(Attach(g.(t := Split(g.t, b, k)), g.t.blocks[b] - k - 1, b + UNIT * k), i, b)
  }

  /** A block cut down to `keep` of its units; the tail goes back to the lists. */
  function Trimmed(g: Books, b: nat, units: nat, keep: nat): Books
    requires CanSplit(g.t, b, keep) && g.t.blocks[b] == units
  {
    Dealt(g.(t := Split(g.t, b, keep)), b + UNIT * keep, units - keep)
  }

  /** All runs of the ring, one after the other. */
  function DealtRing(g: Books, ring: seq<nat>): Books
    decreases |ring|
  {
    if ring == [] || ring[0] !in g.t.blocks || g.t.blocks[ring[0]] == 0 then g
    else DealtRing(Dealt(g, ring[0], g.t.blocks[ring[0]]), ring[1..])
  }

  function NoLists(): FreeLists {
    seq(CLASSES, i => [])
  }

  /** What gluing makes of the books: every list into the ring, neighbours merged, runs dealt out again. */
  function GluedBooks(g: Books): Books {
    var m := Merged(g.t, Gathered([], g.lists, 0), 0);
    DealtRing(Books(m.t, NoLists(), g.live), m.ring)
  }

  /** The free bytes of `g` as the runs of the ring: all of them, and none that could still be merged. */
  ghost predicate Runs(g: Books, t: Tiling, ring: seq<nat>) {
    && Distinct(ring)
    && (forall b | b in t.blocks :: b in ring <==> b !in g.live)
    && (forall b | b in ring :: b in t.blocks)
    && Conserved(g, g.(t := t))
    && FirstSettled(t.blocks, ring, |ring|)
  }

  /** Gluing is complete: the new blocks are the pieces of runs that cannot be merged any further. */
  ghost predicate Glued(g: Books, g': Books) {
    exists t: Tiling, ring: seq<nat> :: Runs(g, t, ring) && g' == DealtRing(Books(t, NoLists(), g.live), ring)
  }

  // ---- where blocks come from ----

  /** A block address or zero, the books, the region bounds and the gluing counter afterwards. */
  datatype Outcome = Outcome(address: nat, g: Books, a: Area, count: int)

  function TakenHead(g: Books, i: nat): Books
    requires i < CLASSES && g.lists[i] != []
  {
    Detach(g, i).(live := g.live + {g.lists[i][0]})
  }

  /** A held block goes to the front of the list of its class. */
  function Released(g: Books, i: nat, b: nat): Books
    requires i < CLASSES
  {
    Attach(g.(live := g.live - {b}), i, b)
  }

  /** The first class from `i` on that has a block. */
  function FirstListed(lists: FreeLists, i: nat): (j: nat)
    requires i <= CLASSES
    ensures i <= j <= CLASSES && (j < CLASSES ==> lists[j] != []) && forall k | i <= k < j :: lists[k] == []
    decreases CLASSES - i
  {
    if i == CLASSES || lists[i] != [] then i else FirstListed(lists, i + 1)
  }

  /** The front of the first block of class `larger`. */
  function TakenFront(g: Books, larger: nat, index: nat): Books
    requires index < larger < CLASSES && g.lists[larger] != []
  {
    var b := g.lists[larger][0];
    UnitsIncrease(index, larger);
    if b in g.t.blocks && g.t.blocks[b] == Units(larger)
    then Trimmed(TakenHead(g, larger), b, Units(larger), Units(index)) else g
  }

  /** A new block at `b`, held by the caller. */
  function Grown(g: Books, b: nat, n: nat): Books {
    Books(Grow(g.t, b, n), g.lists, g.live + {b})
  }

  /** The smallest larger block, or else the room between text and units; the latter brings gluing nearer. */
  function FromLarger(g: Books, a: Area, text: nat, count: int, index: nat): Outcome
    requires index < CLASSES
  {
    var i, bytes := FirstListed(g.lists, index + 1), UNIT * Units(index);
    if i < CLASSES then Outcome(g.lists[i][0], TakenFront(g, i, index), a, count)
    else if a.start - text > bytes
    then Outcome(a.start - bytes, Grown(g, a.start - bytes, Units(index)), a.(start := a.start - bytes), count - 1)
    else Outcome(0, g, a, count - 1)
  }

  /** The rare path: gluing when its counter is down, then the list of the class itself, then the same. */
  function Rare(g: Books, a: Area, text: nat, count: int, index: nat): Outcome
    requires index < CLASSES
  {
    if count != 0 then FromLarger(g, a, text, count, index)
    else
      var m := GluedBooks(g);
      if m.lists[index] != [] then Outcome(m.lists[index][0], TakenHead(m, index), a, 255)
      else FromLarger(m, a, text, 255, index)
  }

  /** A block of class `index`: listed, from the bottom of the gap, or found by the rare path. */
  function Allocated(g: Books, a: Area, text: nat, count: int, index: nat): Outcome
    requires index < CLASSES
  {
    if g.lists[index] != [] then Outcome(g.lists[index][0], TakenHead(g, index), a, count)
    else if a.low + UNIT * Units(index) <= a.high
    then Outcome(a.low, Grown(g, a.low, Units(index)), a.(low := a.low + UNIT * Units(index)), count)
    else Rare(g, a, text, count, index)
  }

  /** One unit for a context: from the top of the gap, else listed, else found by the rare path. */
  function NewContext(g: Books, a: Area, text: nat, count: int): Outcome {
    if a.high != a.low && a.high >= UNIT
    then Outcome(a.high - UNIT, Grown(g, a.high - UNIT, 1), a.(high := a.high - UNIT), count)
    else if g.lists[0] != [] then Outcome(g.lists[0][0], TakenHead(g, 0), a, count)
    else Rare(g, a, text, count, 0)
  }

  lemma RunsAre(s: seq<byte>, g0: Books, g: Books, ring: seq<nat>, a: Area, base: nat)
    requires Scanning(s, g, ring, a, base) && Conserved(g0, g) && FirstSettled(g.t.blocks, ring, |ring|)
    ensures Runs(g0, g.t, ring)
  {
    hide Ring, Stamped, Chains, Grid, Tiles, FirstSettled, Unstamped, Guarded;
    forall b | b in g.t.blocks && b !in g.live ensures b in ring {
      OnlyRing(g, ring, b);
    }
    forall b | b in ring ensures b in g.t.blocks && b !in g.live {
      assert b in Elements(ring) + {};
      DetachedBlock(s, g, Elements(ring) + {}, a, base, b);
    }
  }
}
