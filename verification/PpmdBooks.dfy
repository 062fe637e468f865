/** Who owns each block of the PPMd unit area, and how that agrees with the heap bytes. */
module PpmdBooks {
  import opened Prelude
  import opened PpmdHeap
  import opened PpmdTiling
  import opened PpmdLists

  /** Blocks of the area, the contents of every free list, and the blocks callers hold. */
  datatype Books = Books(t: Tiling, lists: FreeLists, live: set<nat>)

  predicate Classed(units: nat) {
    1 <= units <= 128 && Units(ClassFor(units)) == units
  }

  /** Every block is live, in the free list of exactly its size, or in `detached`; never in two of them. */
  ghost predicate Held(g: Books, detached: set<nat>) {
    && (forall i, k | 0 <= i < CLASSES && 0 <= k < |g.lists[i]| ::
          var q := g.lists[i][k];
          q in g.t.blocks && g.t.blocks[q] == Units(i) && q !in g.live && q !in detached)
    && (forall i, j, k | 0 <= i < CLASSES && 0 <= j < k < |g.lists[i]| :: g.lists[i][j] != g.lists[i][k])
    && (forall b | b in g.live :: b in g.t.blocks && Classed(g.t.blocks[b]) && b !in detached)
    && (forall b | b in detached :: b in g.t.blocks)
    && (forall b | b in g.t.blocks && b !in g.live && b !in detached ::
          Classed(g.t.blocks[b]) && b in g.lists[ClassFor(g.t.blocks[b])])
  }

  predicate OnGrid(x: nat, y: nat) {
    x % UNIT == y % UNIT
  }

  lemma GridShift(x: nat, k: nat)
    ensures OnGrid(x + UNIT * k, x)
  {
  }

  lemma GridGap(x: nat, y: nat)
    requires x < y && OnGrid(x, y)
    ensures x + UNIT <= y
  {
  }

  /** Addresses of blocks and region bounds differ by whole units. */
  ghost predicate Grid(t: Tiling, a: Area) {
    && OnGrid(a.start, a.end) && OnGrid(a.low, a.end) && OnGrid(a.high, a.end)
    && forall b | b in t.blocks :: OnGrid(b, a.end)
  }

  /** Bytes of blocks that no caller holds. */
  ghost predicate FreeByte(g: Books, x: nat) {
    x in g.t.cover && g.t.cover[x] !in g.live
  }

  ghost predicate Consistent(s: seq<byte>, g: Books, detached: set<nat>, a: Area, base: nat) {
    && 0 < a.start && a.end < base && base + 4 * CLASSES <= |s| < 0x1_0000_0000
    && Tiles(g.t, a) && Grid(g.t, a)
    && Held(g, detached)
    && Chains(s, base, g.lists)
  }

  /** Steps that only touch free bytes, the list heads and what lies above them. */
  ghost predicate SameOutside(s: seq<byte>, r: seq<byte>, g: Books, base: nat)
    requires |s| == |r|
  {
    forall x | 0 <= x < base && x < |s| && !FreeByte(g, x) :: r[x] == s[x]
  }

  /** The steps conserve the set of free bytes and leave live blocks as they are. */
  ghost predicate Conserved(g: Books, g': Books) {
    && g'.live == g.live
    && (forall x :: x in g'.t.cover <==> x in g.t.cover)
    && (forall x | x in g.t.cover :: FreeByte(g', x) <==> FreeByte(g, x))
    && (forall b | b in g.live && b in g.t.blocks :: b in g'.t.blocks && g'.t.blocks[b] == g.t.blocks[b])
  }

  // ---- moving blocks between owners ----

  function Detach(g: Books, i: nat): Books
    requires i < CLASSES && g.lists[i] != []
  {
    g.(lists := g.lists[i := g.lists[i][1..]])
  }

  function Attach(g: Books, i: nat, b: nat): Books
    requires i < CLASSES
  {
    g.(lists := g.lists[i := [b] + g.lists[i]])
  }

  lemma HeldDetach(g: Books, detached: set<nat>, i: nat)
    requires Held(g, detached) && i < CLASSES && g.lists[i] != []
    ensures Held(Detach(g, i), detached + {g.lists[i][0]})
  {
    var h := g.lists[i][0];
    var g' := Detach(g, i);
    forall j, k | 0 <= j < CLASSES && 0 <= k < |g'.lists[j]|
      ensures var q := g'.lists[j][k];
              q in g.t.blocks && g.t.blocks[q] == Units(j) && q !in g.live && q !in detached && q != h
    {
      if j == i {
        assert g'.lists[j][k] == g.lists[j][k + 1];
      } else {
        assert g.t.blocks[g.lists[j][k]] == Units(j);
        ClassOfUnits(j);
        ClassOfUnits(i);
      }
    }
    forall b | b in g.t.blocks && b !in g.live && b !in detached && b != h
      ensures b in g'.lists[ClassFor(g.t.blocks[b])]
    {
      var c := ClassFor(g.t.blocks[b]);
      var k :| 0 <= k < |g.lists[c]| && g.lists[c][k] == b;
      if c == i { assert g'.lists[i][k - 1] == b; }
    }
  }

  lemma HeldAttach(g: Books, detached: set<nat>, i: nat, b: nat)
    requires Held(g, detached) && i < CLASSES && b in detached && g.t.blocks[b] == Units(i)
    ensures b !in g.live && Held(Attach(g, i, b), detached - {b})
  {
    var g' := Attach(g, i, b);
    ClassOfUnits(i);
    forall j, k | 0 <= j < CLASSES && 0 <= k < |g'.lists[j]|
      ensures var q := g'.lists[j][k];
              q in g.t.blocks && g.t.blocks[q] == Units(j) && q !in g.live && q !in detached - {b}
    {
      if j == i && k > 0 { assert g'.lists[j][k] == g.lists[j][k - 1]; }
    }
    forall c | c in g.t.blocks && c !in g.live && c !in detached - {b}
      ensures Classed(g.t.blocks[c]) && c in g'.lists[ClassFor(g.t.blocks[c])]
    {
      if c == b {
        assert g'.lists[i][0] == b;
      } else {
        var d := ClassFor(g.t.blocks[c]);
        var k :| 0 <= k < |g.lists[d]| && g.lists[d][k] == c;
        if d == i { assert g'.lists[i][k + 1] == c; }
      }
    }
  }

  lemma HeldAdopt(g: Books, detached: set<nat>, b: nat)
    requires Held(g, detached) && b in detached && Classed(g.t.blocks[b])
    ensures Held(g.(live := g.live + {b}), detached - {b})
  {
  }

  lemma HeldRelease(g: Books, detached: set<nat>, b: nat)
    requires Held(g, detached) && b in g.live
    ensures Held(g.(live := g.live - {b}), detached + {b})
  {
  }

  lemma HeldGrow(g: Books, detached: set<nat>, b: nat, n: nat)
    requires Held(g, detached) && b !in g.t.blocks && n >= 1
    ensures Held(g.(t := Grow(g.t, b, n)), detached + {b})
  {
  }

  lemma HeldSplit(g: Books, detached: set<nat>, b: nat, k: nat)
    requires CanSplit(g.t, b, k) && Held(g, detached) && b in detached && b + UNIT * k !in g.t.blocks
    ensures Held(g.(t := Split(g.t, b, k)), detached + {b + UNIT * k})
  {
  }

  lemma HeldJoin(g: Books, detached: set<nat>, b: nat)
    requires CanJoin(g.t, b) && Held(g, detached) && b in detached && b + UNIT * g.t.blocks[b] in detached
    requires g.t.blocks[b] >= 1
    ensures Held(g.(t := Join(g.t, b)), detached - {b + UNIT * g.t.blocks[b]})
  {
  }

  // ---- list operations on consistent heaps ----

  lemma BlockBounds(s: seq<byte>, g: Books, detached: set<nat>, a: Area, base: nat, b: nat)
    requires Consistent(s, g, detached, a, base) && b in g.t.blocks
    ensures 0 < b && b + 12 <= b + UNIT * g.t.blocks[b] <= a.end < base
  {
    BlockInside(g.t, a, b);
  }

  lemma ListApart(s: seq<byte>, g: Books, detached: set<nat>, a: Area, base: nat, b: nat)
    requires Consistent(s, g, detached, a, base) && b in g.t.blocks && (b in detached || b in g.live)
    ensures forall i, k | 0 <= i < CLASSES && 0 <= k < |g.lists[i]| :: Apart(g.lists[i][k], b)
  {
    forall i, k | 0 <= i < CLASSES && 0 <= k < |g.lists[i]| ensures Apart(g.lists[i][k], b) {
      Disjoint(g.t, a, g.lists[i][k], b);
    }
  }

  lemma InsertStep(s: seq<byte>, g: Books, detached: set<nat>, a: Area, base: nat, i: nat, b: u32)
    requires Consistent(s, g, detached, a, base)
    requires i < CLASSES && b in detached && g.t.blocks[b] == Units(i)
    ensures b + 4 <= |s|
    ensures Consistent(Inserted(s, Head(base, i), b), Attach(g, i, b), detached - {b}, a, base)
    ensures SameOutside(s, Inserted(s, Head(base, i), b), g, base)
  {
    hide GetU32, PutU32;
    BlockBounds(s, g, detached, a, base, b);
    ListApart(s, g, detached, a, base, b);
    InsertedChains(s, base, g.lists, i, b);
    HeldAttach(g, detached, i, b);
    forall x | b <= x < b + 4 ensures FreeByte(g, x) {
      Covered(g.t, a, b, x);
    }
  }

  lemma RemoveStep(s: seq<byte>, g: Books, detached: set<nat>, a: Area, base: nat, i: nat)
    requires Consistent(s, g, detached, a, base) && i < CLASSES && g.lists[i] != []
    ensures GetU32(s, Head(base, i)) == g.lists[i][0] && 0 < g.lists[i][0] && g.lists[i][0] + 4 <= base
    ensures Consistent(Removed(s, Head(base, i)), Detach(g, i), detached + {g.lists[i][0]}, a, base)
    ensures SameOutside(s, Removed(s, Head(base, i)), g, base)
  {
    hide GetU32, PutU32;
    BlockBounds(s, g, detached, a, base, g.lists[i][0]);
    RemovedChains(s, base, g.lists, i);
    HeldDetach(g, detached, i);
  }

  lemma EmptyHead(s: seq<byte>, g: Books, detached: set<nat>, a: Area, base: nat, i: nat)
    requires Consistent(s, g, detached, a, base) && i < CLASSES
    ensures GetU32(s, Head(base, i)) == 0 <==> g.lists[i] == []
  {
    assert Chained(s, Head(base, i), g.lists[i]);
    if g.lists[i] != [] { RemoveStep(s, g, detached, a, base, i); }
  }

  lemma SplitConserves(g: Books, a: Area, b: nat, k: nat)
    requires CanSplit(g.t, b, k) && Tiles(g.t, a) && b !in g.live
    requires b + UNIT * k !in g.live
    ensures Conserved(g, g.(t := Split(g.t, b, k)))
  {
    SplitTiles(g.t, a, b, k);
    forall x | Between(b + UNIT * k, x, b + UNIT * g.t.blocks[b]) ensures FreeByte(g, x) {
      Covered(g.t, a, b, x);
    }
  }

  lemma JoinConserves(g: Books, a: Area, b: nat)
    requires CanJoin(g.t, b) && Tiles(g.t, a) && b !in g.live
    requires b + UNIT * g.t.blocks[b] !in g.live
    ensures Conserved(g, g.(t := Join(g.t, b)))
  {
    var e: nat := b + UNIT * g.t.blocks[b];
    JoinTiles(g.t, a, b);
    forall x | Between(e, x, e + UNIT * g.t.blocks[e]) ensures FreeByte(g, x) {
      Covered(g.t, a, e, x);
    }
  }

  /** `t'` has block `b` of `t` in two parts, the first of `k` units. */
  ghost predicate Parts(t: Tiling, t': Tiling, b: nat, k: nat)
    requires CanSplit(t, b, k)
  {
    && b in t'.blocks && t'.blocks[b] == k
    && b + UNIT * k in t'.blocks && t'.blocks[b + UNIT * k] == t.blocks[b] - k
  }

  lemma SplitGrid(t: Tiling, a: Area, b: nat, k: nat)
    requires CanSplit(t, b, k) && Grid(t, a)
    ensures Grid(Split(t, b, k), a)
  {
    GridShift(b, k);
  }

  lemma SplitStep(s: seq<byte>, g: Books, detached: set<nat>, a: Area, base: nat, b: nat, k: nat)
    requires CanSplit(g.t, b, k) && b in detached
    requires Consistent(s, g, detached, a, base)
    ensures Consistent(s, g.(t := Split(g.t, b, k)), detached + {b + UNIT * k}, a, base)
    ensures Conserved(g, g.(t := Split(g.t, b, k))) && Parts(g.t, Split(g.t, b, k), b, k)
  {
    assert b !in g.live && (b + UNIT * k in g.live ==> b + UNIT * k in g.t.blocks);
    SplitTiles(g.t, a, b, k);
    SplitConserves(g, a, b, k);
    hide Tiles, Conserved, Chains;
    HeldSplit(g, detached, b, k);
    hide Held;
    SplitGrid(g.t, a, b, k);
  }

  lemma JoinStep(s: seq<byte>, g: Books, detached: set<nat>, a: Area, base: nat, b: nat)
    requires CanJoin(g.t, b) && b in detached && b + UNIT * g.t.blocks[b] in detached
    requires Consistent(s, g, detached, a, base)
    ensures Consistent(s, g.(t := Join(g.t, b)), detached - {b + UNIT * g.t.blocks[b]}, a, base)
    ensures Conserved(g, g.(t := Join(g.t, b)))
  {
    assert b !in g.live && b + UNIT * g.t.blocks[b] !in g.live;
    assert g.t.blocks[b] >= 1;
    JoinTiles(g.t, a, b);
    JoinConserves(g, a, b);
    hide Tiles, Conserved, Chains;
    HeldJoin(g, detached, b);
    hide Held;
  }

  /** The area grows by one block of `n` units at `b`, which the caller then holds. */
  lemma GrowStep(s: seq<byte>, g: Books, a: Area, base: nat, b: nat, n: nat, a': Area)
    requires Consistent(s, g, {}, a, base) && Classed(n)
    requires
      || (b == a.low && a.low + UNIT * n <= a.high && a' == a.(low := a.low + UNIT * n))
      || (n == 1 && a.low + UNIT <= a.high && b == a.high - UNIT && a' == a.(high := b))
      || (UNIT * n < a.start && b == a.start - UNIT * n && a' == a.(start := b))
    ensures b !in g.t.blocks && b !in g.live
    ensures Consistent(s, Books(Grow(g.t, b, n), g.lists, g.live + {b}), {}, a', base)
    ensures forall c | c in g.t.blocks :: c != b
  {
    forall x: nat ensures InArea(a', x) <==> InArea(a, x) || Between(b, x, b + UNIT * n) {}
    GrowTiles(g.t, a, b, n, a');
    HeldGrow(g, {}, b, n);
    var g1 := g.(t := Grow(g.t, b, n));
    HeldAdopt(g1, {} + {b}, b);
    assert {} + {b} - {b} == {};
    assert g1.(live := g1.live + {b}) == Books(Grow(g.t, b, n), g.lists, g.live + {b});
    hide Grid, Held, Tiles, OnGrid;
    GrowGrid(g.t, a, b, n, a');
  }

  lemma GrowGrid(t: Tiling, a: Area, b: nat, n: nat, a': Area)
    requires Grid(t, a) && a'.end == a.end
    requires
      || (b == a.low && a' == a.(low := a.low + UNIT * n))
      || (n == 1 && b == a.high - UNIT && a' == a.(high := b))
      || (b == a.start - UNIT * n && a' == a.(start := b))
    ensures Grid(Grow(t, b, n), a')
  {
    GridShift(b, n);
    hide OnGrid;
    assert forall c | c in Grow(t, b, n).blocks :: c == b || c in t.blocks;
    GridStep(b, b + UNIT * n, a.end);
  }

  lemma GridStep(x: nat, y: nat, z: nat)
    requires OnGrid(y, x)
    ensures OnGrid(y, z) <==> OnGrid(x, z)
  {
  }

  // ---- steps callers see ----

  /** Blocks in `live` keep their place and length. */
  ghost predicate SameBlocks(live: set<nat>, t: Tiling, t': Tiling) {
    forall b | b in live && b in t.blocks :: b in t'.blocks && t'.blocks[b] == t.blocks[b]
  }

  /** A caller now holds one more block, of `n` units, and every block it held before. */
  ghost predicate Granted(g: Books, g': Books, b: nat, n: nat) {
    && b !in g.live && g'.live == g.live + {b}
    && b in g'.t.blocks && g'.t.blocks[b] == n
    && SameBlocks(g.live, g.t, g'.t)
  }

  /** Neither a free byte nor a byte of the gap: text, held blocks, and the byte behind the area. */
  ghost predicate Kept(g: Books, a: Area, x: nat) {
    !FreeByte(g, x) && !Between(a.low, x, a.high)
  }

  ghost predicate KeptSame(s: seq<byte>, r: seq<byte>, g: Books, a: Area, base: nat) {
    && |r| == |s|
    && forall x | 0 <= x < base && x < |s| && Kept(g, a, x) :: r[x] == s[x]
  }

  /** A listed block becomes a held one. */
  lemma TakeStep(s: seq<byte>, g: Books, a: Area, base: nat, i: nat)
    requires Consistent(s, g, {}, a, base) && i < CLASSES && g.lists[i] != []
    ensures GetU32(s, Head(base, i)) == g.lists[i][0] && 0 < g.lists[i][0] && g.lists[i][0] + 4 <= base
    ensures var b, g1 := g.lists[i][0], Detach(g, i);
            var g2 := g1.(live := g1.live + {b});
            && Consistent(Removed(s, Head(base, i)), g2, {}, a, base)
            && KeptSame(s, Removed(s, Head(base, i)), g, a, base)
            && Granted(g, g2, b, Units(i))
  {
    var b, g1 := g.lists[i][0], Detach(g, i);
    assert g.t.blocks[b] == Units(i) && b !in g.live;
    RemoveStep(s, g, {}, a, base, i);
    ClassOfUnits(i);
    hide Chains, Tiles, Grid, GetU32, PutU32;
    HeldAdopt(g1, {} + {b}, b);
    assert {} + {b} - {b} == {};
  }

  /** The tail of a held block is cut off and detached. */
  lemma CarveStep(s: seq<byte>, g: Books, a: Area, base: nat, b: nat, k: nat)
    requires CanSplit(g.t, b, k) && b in g.live && Classed(k)
    requires Consistent(s, g, {}, a, base)
    ensures Consistent(s, g.(t := Split(g.t, b, k)), {b + UNIT * k}, a, base)
    ensures forall x :: FreeByte(g.(t := Split(g.t, b, k)), x)
                   <==> FreeByte(g, x) || Between(b + UNIT * k, x, b + UNIT * g.t.blocks[b])
    ensures SameBlocks(g.live - {b}, g.t, Split(g.t, b, k))
    ensures Parts(g.t, Split(g.t, b, k), b, k)
  {
    var c := b + UNIT * k;
    SplitTiles(g.t, a, b, k);
    assert c !in g.live;
    forall x
      ensures FreeByte(g.(t := Split(g.t, b, k)), x) <==> FreeByte(g, x) || Between(c, x, b + UNIT * g.t.blocks[b])
    {
      if Between(c, x, b + UNIT * g.t.blocks[b]) {
        Covered(g.t, a, b, x);
      }
    }
    CarveHeld(g, a, b, k);
    hide Tiles, Held, Chains;
    SplitGrid(g.t, a, b, k);
  }

  lemma CarveHeld(g: Books, a: Area, b: nat, k: nat)
    requires CanSplit(g.t, b, k) && b in g.live && Classed(k) && Held(g, {}) && b + UNIT * k !in g.t.blocks
    ensures Held(g.(t := Split(g.t, b, k)), {b + UNIT * k})
  {
    var c := b + UNIT * k;
    assert b in Split(g.t, b, k).blocks && Split(g.t, b, k).blocks[b] == k && Units(ClassFor(k)) == k;
    HeldRelease(g, {}, b);
    hide Held, Split, Units, ClassFor;
    var g1 := g.(live := g.live - {b});
    HeldSplit(g1, {} + {b}, b, k);
    var g2 := g1.(t := Split(g.t, b, k));
    HeldAdopt(g2, {} + {b} + {c}, b);
    assert {} + {b} + {c} - {b} == {c};
    assert g2.(live := g2.live + {b}) == g.(t := Split(g.t, b, k));
  }

  /** A held block is listed again. */
  lemma GiveStep(s: seq<byte>, g: Books, a: Area, base: nat, b: nat)
    requires Consistent(s, g, {}, a, base) && b in g.live
    ensures b in g.t.blocks && Classed(g.t.blocks[b]) && b + 12 <= base && b < 0x1_0000_0000
    ensures var i, g1 := ClassFor(g.t.blocks[b]), g.(live := g.live - {b});
            && Consistent(Inserted(s, Head(base, i), b), Attach(g1, i, b), {}, a, base)
            && SameOutside(s, Inserted(s, Head(base, i), b), g1, base)
  {
    assert b in g.t.blocks && Classed(g.t.blocks[b]);
    BlockBounds(s, g, {}, a, base, b);
    var i, g1 := ClassFor(g.t.blocks[b]), g.(live := g.live - {b});
    HeldRelease(g, {}, b);
    hide Held, Chains, Tiles, Grid, GetU32, PutU32;
    InsertStep(s, g1, {} + {b}, a, base, i, b);
    assert {} + {b} - {b} == {};
  }

  /** Bytes outside the free ones can change without affecting any list. */
  lemma HeldWrite(s: seq<byte>, r: seq<byte>, g: Books, a: Area, base: nat)
    requires |s| == |r| && Consistent(s, g, {}, a, base)
    requires forall x | base <= x < base + 4 * CLASSES :: r[x] == s[x]
    requires forall x | 0 <= x < base && FreeByte(g, x) :: r[x] == s[x]
    ensures Consistent(r, g, {}, a, base)
  {
    hide GetU32;
    forall i, k, x | 0 <= i < CLASSES && 0 <= k < |g.lists[i]| && g.lists[i][k] <= x < g.lists[i][k] + 4
      ensures r[x] == s[x]
    {
      var q := g.lists[i][k];
      assert q in g.t.blocks && q !in g.live;
      Covered(g.t, a, q, x);
    }
    ChainsFrame(s, r, base, g.lists);
  }

  lemma KeptTrans(s: seq<byte>, m: seq<byte>, r: seq<byte>, g: Books, g': Books, a: Area, base: nat)
    requires KeptSame(s, m, g, a, base) && KeptSame(m, r, g', a, base)
    requires forall x | x in g'.t.cover && FreeByte(g', x) :: FreeByte(g, x)
    ensures KeptSame(s, r, g, a, base)
  {
  }

  lemma GrantedTrans(g: Books, g1: Books, g2: Books, b: nat, n: nat)
    requires Conserved(g, g1) && Granted(g1, g2, b, n)
    ensures Granted(g, g2, b, n)
  {
  }

  lemma GrowGranted(g: Books, b: nat, n: nat)
    requires b !in g.t.blocks && b !in g.live
    ensures Granted(g, Books(Grow(g.t, b, n), g.lists, g.live + {b}), b, n)
  {
  }

  lemma GapUnits(s: seq<byte>, g: Books, a: Area, base: nat)
    requires Consistent(s, g, {}, a, base) && a.low < a.high
    ensures a.low + UNIT <= a.high
  {
    assert OnGrid(a.low, a.high);
    GridGap(a.low, a.high);
  }

  /** One unit from the top of the gap. */
  lemma TakeTop(s: seq<byte>, g: Books, a: Area, base: nat)
    requires Consistent(s, g, {}, a, base) && a.low < a.high
    ensures a.low + UNIT <= a.high
    ensures var b := a.high - UNIT;
            && Consistent(s, Books(Grow(g.t, b, 1), g.lists, g.live + {b}), {}, a.(high := b), base)
            && Granted(g, Books(Grow(g.t, b, 1), g.lists, g.live + {b}), b, 1)
  {
    hide Consistent, Granted, Grow;
    GapUnits(s, g, a, base);
    assert Classed(1);
    var b := a.high - UNIT;
    GrowStep(s, g, a, base, b, 1, a.(high := b));
    GrowGranted(g, b, 1);
  }

  lemma TakeBottom(s: seq<byte>, g: Books, a: Area, base: nat, i: nat)
    requires Consistent(s, g, {}, a, base) && i < CLASSES && a.low + UNIT * Units(i) <= a.high
    ensures var b, n := a.low, Units(i);
            && Consistent(s, Books(Grow(g.t, b, n), g.lists, g.live + {b}), {}, a.(low := b + UNIT * n), base)
            && Granted(g, Books(Grow(g.t, b, n), g.lists, g.live + {b}), b, n)
  {
    hide Consistent, Granted, Grow;
    ClassOfUnits(i);
    GrowStep(s, g, a, base, a.low, Units(i), a.(low := a.low + UNIT * Units(i)));
    GrowGranted(g, a.low, Units(i));
  }

  lemma TakeBelow(s: seq<byte>, g: Books, a: Area, base: nat, i: nat)
    requires Consistent(s, g, {}, a, base) && i < CLASSES && UNIT * Units(i) < a.start
    ensures var b, n := a.start - UNIT * Units(i), Units(i);
            && Consistent(s, Books(Grow(g.t, b, n), g.lists, g.live + {b}), {}, a.(start := b), base)
            && Granted(g, Books(Grow(g.t, b, n), g.lists, g.live + {b}), b, n)
  {
    hide Consistent, Granted, Grow;
    ClassOfUnits(i);
    var b := a.start - UNIT * Units(i);
    GrowStep(s, g, a, base, b, Units(i), a.(start := b));
    GrowGranted(g, b, Units(i));
  }

  lemma KeptSelf(s: seq<byte>, g: Books, a: Area, base: nat)
    ensures KeptSame(s, s, g, a, base)
  {
  }

  /** The end byte of the area is kept by list operations. */
  lemma EndOutside(s: seq<byte>, r: seq<byte>, g: Books, a: Area, base: nat)
    requires Consistent(s, g, {}, a, base) && KeptSame(s, r, g, a, base)
    ensures a.end < |s| && r[a.end] == s[a.end]
  {
    assert !InArea(a, a.end);
  }

  /** A listed larger block is taken and its tail returned: only the front is granted. */
  lemma TakeSplit(s: seq<byte>, m: seq<byte>, r: seq<byte>, g: Books, g1: Books, g2: Books,
                  a: Area, base: nat, b: nat, n: nat, k: nat)
    requires Granted(g, g1, b, n) && KeptSame(s, m, g, a, base) && k <= n
    requires g2.live == g1.live && SameBlocks(g1.live - {b}, g1.t, g2.t)
    requires b in g2.t.blocks && g2.t.blocks[b] == k
    requires |r| == |m| && SameOutside(m, r, g2, base)
    requires forall x | FreeByte(g2, x) :: FreeByte(g, x)
    ensures Granted(g, g2, b, k) && KeptSame(s, r, g, a, base)
  {
    forall c | c in g.live && c in g.t.blocks ensures c in g2.t.blocks && g2.t.blocks[c] == g.t.blocks[c] {
      assert c in g1.live - {b};
    }
  }

  lemma ListedFree(s: seq<byte>, g: Books, a: Area, base: nat, i: nat)
    requires Consistent(s, g, {}, a, base) && i < CLASSES && g.lists[i] != []
    ensures forall x: nat | Between(g.lists[i][0], x, g.lists[i][0] + UNIT * Units(i)) :: FreeByte(g, x)
  {
    var b: nat := g.lists[i][0];
    assert b in g.t.blocks && g.t.blocks[b] == Units(i) && b !in g.live;
    forall x: nat | Between(b, x, b + UNIT * Units(i)) ensures FreeByte(g, x) {
      Covered(g.t, a, b, x);
    }
  }

  // ---- moving the contents of a block ----

  /** Bytes a caller may rely on across a move of `except`: the text, other held blocks, the end of the area. */
  ghost predicate Relied(g: Books, except: nat, text: nat, end: nat, x: nat) {
    x < text || end <= x || (x in g.t.cover && g.t.cover[x] in g.live && g.t.cover[x] != except)
  }

  ghost predicate ReliedSame(s: seq<byte>, r: seq<byte>, g: Books, except: nat, text: nat, end: nat, base: nat) {
    && |r| == |s|
    && forall x | 0 <= x < base && x < |s| && Relied(g, except, text, end, x) :: r[x] == s[x]
  }

  ghost predicate SameContents(s: seq<byte>, from: nat, r: seq<byte>, to: nat, n: nat) {
    && from + n <= |s| && to + n <= |r|
    && r[to..to + n] == s[from..from + n]
  }

  lemma CopyConsistent(s: seq<byte>, g: Books, a: Area, base: nat, from: nat, to: nat, n: nat)
    requires Consistent(s, g, {}, a, base) && from in g.live && to in g.live && from != to
    requires n <= UNIT * g.t.blocks[from] && n <= UNIT * g.t.blocks[to]
    ensures from + n <= a.end && to + n <= a.end && a.end < base && base <= |s|
    ensures Consistent(Copied(s, to, from, n), g, {}, a, base)
    ensures forall x | 0 <= x < |s| && Copied(s, to, from, n)[x] != s[x] ::
              x in g.t.cover && g.t.cover[x] == to
  {
    BlockBounds(s, g, {}, a, base, from);
    BlockBounds(s, g, {}, a, base, to);
    var r := Copied(s, to, from, n);
    forall x | 0 <= x < |s| && r[x] != s[x] ensures x in g.t.cover && g.t.cover[x] == to {
      Covered(g.t, a, to, x);
    }
    hide Chains, Held, Tiles, Grid;
    HeldWrite(s, r, g, a, base);
  }

  /** A block is granted, filled from `from`, and `from` is listed: the contents have moved and nothing else has. */
  lemma Moved(s: seq<byte>, s1: seq<byte>, g: Books, g1: Books, a: Area, a1: Area, base: nat,
              text: nat, from: nat, to: nat, units: nat, n: nat)
    requires Consistent(s, g, {}, a, base) && from in g.live && text <= a.start && text <= a1.start && a1.end == a.end
    requires KeptSame(s, s1, g, a, base) && Granted(g, g1, to, units) && Consistent(s1, g1, {}, a1, base)
    requires from in g.t.blocks && n <= UNIT * g.t.blocks[from] && n <= UNIT * units
    ensures from in g1.live && to in g1.live && from != to && g1.t.blocks[to] == units
    ensures from in g1.t.blocks && g1.t.blocks[from] == g.t.blocks[from]
    ensures from + n <= |s1| && to + n <= |s1|
    ensures ReliedSame(s, Copied(s1, to, from, n), g, from, text, a.end, base)
    ensures SameContents(s, from, Copied(s1, to, from, n), to, n)
  {
    CopyConsistent(s1, g1, a1, base, from, to, n);
    var r := Copied(s1, to, from, n);
    MovedContents(s, s1, g, a, base, from, to, n);
    forall x | 0 <= x < base && x < |s| && Relied(g, from, text, a.end, x) ensures r[x] == s[x] {
      ReliedKept(s, g, a, base, from, text, x);
      if r[x] != s1[x] {
        assert g1.t.cover[x] == to && Owns(g1.t, to, x);
        MovedElsewhere(s, s1, g, g1, a, a1, base, text, from, to, units, x);
      }
    }
  }

  lemma ReliedKept(s: seq<byte>, g: Books, a: Area, base: nat, except: nat, text: nat, x: nat)
    requires Consistent(s, g, {}, a, base) && text <= a.start && Relied(g, except, text, a.end, x)
    ensures Kept(g, a, x)
  {
    if x < text || a.end <= x {
      assert !InArea(a, x);
    } else {
      assert InArea(a, x);
    }
  }

  lemma HeldKept(g: Books, a: Area, b: nat)
    requires Tiles(g.t, a) && b in g.live && b in g.t.blocks
    ensures forall x | b <= x < b + UNIT * g.t.blocks[b] :: Kept(g, a, x)
  {
    forall x | b <= x < b + UNIT * g.t.blocks[b] ensures Kept(g, a, x) {
      Covered(g.t, a, b, x);
    }
  }

  lemma MovedContents(s: seq<byte>, s1: seq<byte>, g: Books, a: Area, base: nat, from: nat, to: nat, n: nat)
    requires Consistent(s, g, {}, a, base) && from in g.live && from in g.t.blocks && n <= UNIT * g.t.blocks[from]
    requires KeptSame(s, s1, g, a, base) && from + n <= |s1| && to + n <= |s1|
    ensures SameContents(s, from, Copied(s1, to, from, n), to, n)
  {
    hide Held, Chains, Grid, Tiles, Kept, Copied;
    HeldKept(g, a, from);
    BlockBounds(s, g, {}, a, base, from);
    hide Consistent;
    assert s1[from..from + n] == s[from..from + n];
    CopiedSlice(s1, to, from, n);
  }

  lemma CopiedSlice(s: seq<byte>, to: nat, from: nat, n: nat)
    requires from + n <= |s| && to + n <= |s|
    ensures Copied(s, to, from, n)[to..to + n] == s[from..from + n]
  {
  }

  /** A relied-on byte never lies in the newly granted block. */
  lemma MovedElsewhere(s: seq<byte>, s1: seq<byte>, g: Books, g1: Books, a: Area, a1: Area, base: nat,
                       text: nat, from: nat, to: nat, units: nat, x: nat)
    requires Consistent(s, g, {}, a, base) && Consistent(s1, g1, {}, a1, base)
    requires text <= a1.start && a1.end == a.end && Granted(g, g1, to, units)
    requires Relied(g, from, text, a.end, x)
    ensures !(x in g1.t.cover && g1.t.cover[x] == to)
  {
    if x < text || a.end <= x {
      assert !InArea(a1, x);
    } else {
      var c := g.t.cover[x];
      assert Owns(g.t, c, x);
      assert Owns(g1.t, c, x);
    }
  }

  lemma TwoHeld(s: seq<byte>, g: Books, a: Area, base: nat, b: nat, c: nat)
    requires Consistent(s, g, {}, a, base) && b in g.live && c in g.live && b != c
    ensures b in g.t.blocks && c in g.t.blocks && Classed(g.t.blocks[b])
    ensures b + UNIT * g.t.blocks[b] <= c || c + UNIT * g.t.blocks[c] <= b
    ensures b + 12 <= b + UNIT * g.t.blocks[b] <= a.end < base
    ensures c + UNIT * g.t.blocks[c] <= a.end && base + 4 * CLASSES <= |s| < 0x1_0000_0000
  {
    assert Classed(g.t.blocks[b]);
    BlockBounds(s, g, {}, a, base, b);
    BlockBounds(s, g, {}, a, base, c);
    Disjoint(g.t, a, b, c);
  }

  lemma NotRelied(s: seq<byte>, g: Books, a: Area, base: nat, b: nat, text: nat)
    requires Consistent(s, g, {}, a, base) && b in g.live && text <= a.start
    ensures forall x | b <= x < b + 12 :: !Relied(g, b, text, a.end, x)
  {
    BlockBounds(s, g, {}, a, base, b);
    BlockInside(g.t, a, b);
    CoverOfFirst(g, a, b);
  }

  lemma CoverOfFirst(g: Books, a: Area, b: nat)
    requires Tiles(g.t, a) && b in g.t.blocks
    ensures forall x | b <= x < b + 12 :: x in g.t.cover && g.t.cover[x] == b
  {
    forall x | b <= x < b + 12 ensures x in g.t.cover && g.t.cover[x] == b {
      Covered(g.t, a, b, x);
    }
  }

  /** The last step of a move: the old block is listed, which writes only its first four bytes. */
  lemma MoveListed(s: seq<byte>, m: seq<byte>, g: Books, g1: Books, a: Area, a1: Area, base: nat,
                   text: nat, from: nat, to: nat, n: nat)
    requires Consistent(m, g1, {}, a1, base) && from in g1.live && to in g1.live && from != to
    requires to in g1.t.blocks && n <= UNIT * g1.t.blocks[to] && text <= a.start
    requires Consistent(s, g, {}, a, base) && from in g.live
    requires ReliedSame(s, m, g, from, text, a.end, base) && SameContents(s, from, m, to, n)
    ensures from in g1.t.blocks && Classed(g1.t.blocks[from])
    ensures from + 12 <= base && base + 4 * CLASSES <= |m| < 0x1_0000_0000
    ensures var r := Inserted(m, Head(base, ClassFor(g1.t.blocks[from])), from);
            && ReliedSame(s, r, g, from, text, a.end, base) && SameContents(s, from, r, to, n)
  {
    hide Consistent, Relied, GetU32, PutU32;
    TwoHeld(m, g1, a1, base, from, to);
    NotRelied(s, g, a, base, from, text);
    var r := Inserted(m, Head(base, ClassFor(g1.t.blocks[from])), from);
    assert r[to..to + n] == m[to..to + n];
  }
}
