/** Partitions of the PPMd unit area into blocks, independent of the heap bytes. */
module PpmdTiling {
  import opened Prelude

  const UNIT: nat := 12

  /** The unit area is [start, low) and [high, end); [low, high) is the gap never allocated so far. */
  datatype Area = Area(start: nat, low: nat, high: nat, end: nat)

  /** `blocks` gives the units of each block; `cover` gives the block each byte of the area belongs to. */
  datatype Tiling = Tiling(blocks: map<nat, nat>, cover: map<nat, nat>)

  predicate Between(from: nat, x: nat, to: nat) {
    from <= x < to
  }

  predicate InArea(a: Area, x: nat) {
    Between(a.start, x, a.low) || Between(a.high, x, a.end)
  }

  predicate Owns(t: Tiling, b: nat, x: nat) {
    b in t.blocks && b <= x < b + UNIT * t.blocks[b]
  }

  /** Every byte of the area lies in exactly one block, and blocks contain nothing else. */
  ghost predicate Tiles(t: Tiling, a: Area) {
    && a.start <= a.low <= a.high <= a.end
    && (forall b | b in t.blocks :: t.blocks[b] >= 1)
    && (forall x | x in t.cover :: InArea(a, x) && Owns(t, t.cover[x], x))
    && (forall x | InArea(a, x) :: x in t.cover)
    && (forall b, x | Owns(t, b, x) :: x in t.cover && t.cover[x] == b)
  }

  lemma Covered(t: Tiling, a: Area, b: nat, x: nat)
    requires Tiles(t, a) && b in t.blocks && b <= x < b + UNIT * t.blocks[b]
    ensures InArea(a, x) && x in t.cover && t.cover[x] == b
  {
    assert Owns(t, b, x);
  }

  lemma BlockInside(t: Tiling, a: Area, b: nat)
    requires Tiles(t, a) && b in t.blocks
    ensures a.start <= b && b + UNIT * t.blocks[b] <= a.end
    ensures a.low < a.high ==> b + UNIT * t.blocks[b] <= a.low || a.high <= b
  {
    var n := UNIT * t.blocks[b];
    Covered(t, a, b, b);
    Covered(t, a, b, b + n - 1);
    if a.low < a.high && b <= a.low < b + n {
      Covered(t, a, b, a.low);
    }
  }

  /** Two different blocks share no byte. */
  lemma Disjoint(t: Tiling, a: Area, b: nat, c: nat)
    requires Tiles(t, a) && b in t.blocks && c in t.blocks && b != c
    ensures b + UNIT * t.blocks[b] <= c || c + UNIT * t.blocks[c] <= b
  {
    if b < c < b + UNIT * t.blocks[b] {
      Covered(t, a, b, c);
      Covered(t, a, c, c);
    }
    if c < b < c + UNIT * t.blocks[c] {
      Covered(t, a, c, b);
      Covered(t, a, b, b);
    }
  }

  /** What follows a block is another block, the gap, or the end of the area. */
  lemma NextBoundary(t: Tiling, a: Area, b: nat)
    requires Tiles(t, a) && b in t.blocks
    ensures var e := b + UNIT * t.blocks[b];
            e in t.blocks || (e == a.low && a.low < a.high) || e == a.end
  {
    var e: nat := b + UNIT * t.blocks[b];
    BlockInside(t, a, b);
    if InArea(a, e) {
      var c := t.cover[e];
      assert Owns(t, c, e);
      if c < e {
        Covered(t, a, b, e - 1);
        Covered(t, a, c, e - 1);
      }
    }
  }

  function Covering(from: nat, to: nat, b: nat): (m: map<nat, nat>)
    ensures forall x :: x in m <==> Between(from, x, to)
    ensures forall x | x in m :: m[x] == b
  {
    map x | 0 <= x < to && Between(from, x, to) :: b
  }

  /** A new block of `n` units at `b`. */
  function Grow(t: Tiling, b: nat, n: nat): Tiling {
    Tiling(t.blocks[b := n], t.cover + Covering(b, b + UNIT * n, b))
  }

  predicate CanSplit(t: Tiling, b: nat, k: nat) {
    b in t.blocks && 1 <= k < t.blocks[b]
  }

  /** Block `b` cut after its first `k` units. */
  function Split(t: Tiling, b: nat, k: nat): Tiling
    requires CanSplit(t, b, k)
  {
    var n := t.blocks[b];
    Tiling(t.blocks[b := k][b + UNIT * k := n - k],
           t.cover + Covering(b + UNIT * k, b + UNIT * n, b + UNIT * k))
  }

  predicate CanJoin(t: Tiling, b: nat) {
    b in t.blocks && b + UNIT * t.blocks[b] in t.blocks
  }

  /** Block `b` merged with the block that follows it. */
  function Join(t: Tiling, b: nat): Tiling
    requires CanJoin(t, b)
  {
    var e: nat := b + UNIT * t.blocks[b];
    Tiling((t.blocks - {e})[b := t.blocks[b] + t.blocks[e]],
           t.cover + Covering(e, e + UNIT * t.blocks[e], b))
  }

  /** A block added over bytes that were outside the area, which grows by exactly that block. */
  lemma GrowTiles(t: Tiling, a: Area, b: nat, n: nat, a': Area)
    requires Tiles(t, a) && 1 <= n && a'.start <= a'.low <= a'.high <= a'.end
    requires forall x :: InArea(a', x) <==> InArea(a, x) || Between(b, x, b + UNIT * n)
    requires forall x | Between(b, x, b + UNIT * n) :: !InArea(a, x)
    ensures b !in t.blocks && Tiles(Grow(t, b, n), a')
  {
    assert Between(b, b, b + UNIT * n);
    if b in t.blocks {
      Covered(t, a, b, b);
    }
    var g := Grow(t, b, n);
    forall c, x | Owns(g, c, x) ensures x in g.cover && g.cover[x] == c {
      if c != b {
        assert Owns(t, c, x);
      } else {
        assert Between(b, x, b + UNIT * n);
      }
    }
    forall x | x in g.cover ensures InArea(a', x) && Owns(g, g.cover[x], x) {
      if x in t.cover && !Between(b, x, b + UNIT * n) {
        assert Owns(t, t.cover[x], x);
      }
    }
  }

  lemma SplitTiles(t: Tiling, a: Area, b: nat, k: nat)
    requires Tiles(t, a) && CanSplit(t, b, k)
    ensures b + UNIT * k !in t.blocks
    ensures Tiles(Split(t, b, k), a)
  {
    var c := b + UNIT * k;
    Covered(t, a, b, c);
    if c in t.blocks { Covered(t, a, c, c); }
    var g := Split(t, b, k);
    forall d, x | Owns(g, d, x) ensures x in g.cover && g.cover[x] == d {
      assert Between(c, x, b + UNIT * t.blocks[b]) ==> Owns(t, b, x);
      assert d == c || Owns(t, d, x);
    }
    forall x | x in g.cover ensures InArea(a, x) && Owns(g, g.cover[x], x) {
      if Between(c, x, b + UNIT * t.blocks[b]) {
        assert Owns(t, b, x);
      } else {
        assert Owns(t, t.cover[x], x);
      }
    }
  }

  lemma JoinTiles(t: Tiling, a: Area, b: nat)
    requires Tiles(t, a) && CanJoin(t, b)
    ensures Tiles(Join(t, b), a)
  {
    var e: nat := b + UNIT * t.blocks[b];
    var g := Join(t, b);
    forall d, x | Owns(g, d, x) ensures x in g.cover && g.cover[x] == d {
      assert Between(e, x, e + UNIT * t.blocks[e]) ==> Owns(t, e, x);
      assert (d == b && e <= x) || Owns(t, d, x);
    }
    forall x | x in g.cover ensures InArea(a, x) && Owns(g, g.cover[x], x) {
      if Between(e, x, e + UNIT * t.blocks[e]) {
        assert Owns(t, e, x);
      } else {
        assert Owns(t, t.cover[x], x);
        assert t.cover[x] != e;
      }
    }
  }
}
