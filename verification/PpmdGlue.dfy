/** The states `glue_free_blocks` passes through, and what each of its steps keeps. */
module PpmdGlue {
  import opened Prelude
  import opened PpmdHeap
  import opened PpmdTiling
  import opened PpmdLists
  import opened PpmdBooks

  const STAMP: nat := 0xffff

  ghost function Elements(ring: seq<nat>): set<nat> {
    set b | b in ring
  }

  ghost predicate Distinct(ring: seq<nat>) {
    NoRepeats(ring)
  }

  /** Every ring block carries the free stamp and its own length in units. */
  ghost predicate Stamped(s: seq<byte>, ring: seq<nat>, blocks: map<nat, nat>) {
    forall k | 0 <= k < |ring| ::
      && ring[k] + 4 <= |s| && ring[k] in blocks
      && GetU16(s, ring[k]) == STAMP && GetU16(s, ring[k] + 2) == blocks[ring[k]]
  }

  /** Detached blocks sit in the ring, apart from `extra` ones the loop holds in a local. */
  ghost predicate Gluing(s: seq<byte>, g: Books, ring: seq<nat>, extra: set<nat>, a: Area, base: nat) {
    && Consistent(s, g, Elements(ring) + extra, a, base)
    && Distinct(ring) && Elements(ring) !! extra
    && Ring(s, ring, base + 4 * CLASSES)
    && Stamped(s, ring, g.t.blocks)
  }

  /** No block a caller holds begins with the two bytes that mark a free block. */
  ghost predicate Unstamped(s: seq<byte>, live: set<nat>) {
    forall b | b in live && b + 2 <= |s| :: GetU16(s, b) != STAMP
  }

  lemma SameHalf(s: seq<byte>, r: seq<byte>, x: nat)
    requires |s| == |r| && x + 2 <= |s| && r[x] == s[x] && r[x + 1] == s[x + 1]
    ensures GetU16(r, x) == GetU16(s, x)
  {
  }

  /** A write inside detached blocks leaves the books consistent with the free lists in the heap. */
  lemma WriteFrame(s: seq<byte>, r: seq<byte>, g: Books, detached: set<nat>, a: Area, base: nat,
                   nodes: seq<nat>, from: nat, to: nat)
    requires Consistent(s, g, detached, a, base) && Elements(nodes) <= detached
    requires to <= 12 && OnlyNodes(s, r, nodes, from, to, base + 4 * CLASSES)
    ensures Consistent(r, g, detached, a, base)
    ensures SameOutside(s, r, g, base)
  {
    hide GetU32;
    forall x | 0 <= x < base + 4 * CLASSES && r[x] != s[x]
      ensures x < base && x in g.t.cover && g.t.cover[x] in detached
    {
      var k :| 0 <= k < |nodes| && nodes[k] + from <= x < nodes[k] + to;
      assert nodes[k] in Elements(nodes);
      BlockBounds(s, g, detached, a, base, nodes[k]);
      CoverOfFirst(g, a, nodes[k]);
    }
    forall i, k, x | 0 <= i < CLASSES && 0 <= k < |g.lists[i]| && g.lists[i][k] <= x < g.lists[i][k] + 4
      ensures r[x] == s[x]
    {
      var q := g.lists[i][k];
      assert q in g.t.blocks && q !in detached;
      Covered(g.t, a, q, x);
    }
    ChainsFrame(s, r, base, g.lists);
  }

  /** Link words and stamp words of ring blocks do not overlap. */
  lemma StampedFrame(s: seq<byte>, r: seq<byte>, ring: seq<nat>, blocks: map<nat, nat>,
                     nodes: seq<nat>, limit: nat)
    requires Stamped(s, ring, blocks) && OnlyNodes(s, r, nodes, 4, 12, limit)
    requires forall j, k | 0 <= j < |nodes| && 0 <= k < |ring| :: nodes[j] == ring[k] || Apart(nodes[j], ring[k])
    requires forall k | 0 <= k < |ring| :: ring[k] + 12 <= limit
    ensures Stamped(r, ring, blocks)
  {
    hide GetU16;
    forall k | 0 <= k < |ring|
      ensures GetU16(r, ring[k]) == STAMP && GetU16(r, ring[k] + 2) == blocks[ring[k]]
    {
      SameHalf(s, r, ring[k]);
      SameHalf(s, r, ring[k] + 2);
    }
  }

  /** A block's stamp and length, or its free-list link, can be written without disturbing the ring. */
  lemma LowWordFrame(s: seq<byte>, r: seq<byte>, ring: seq<nat>, sentinel: nat, b: nat)
    requires Ring(s, ring, sentinel) && OnlyNodes(s, r, [b], 0, 4, sentinel + 12)
    requires b + 12 <= sentinel && forall k | 0 <= k < |ring| :: ring[k] == b || Apart(b, ring[k])
    ensures Ring(r, ring, sentinel)
  {
    hide GetU32;
    forall x | 0 <= x < sentinel + 12 && r[x] != s[x] ensures b <= x < b + 4 {
      assert InNode([b], 0, 4, x);
    }
    RingFrame(s, r, ring, sentinel);
  }

  // ---- phase 1: every listed block moves to the ring ----

  lemma GatherRemove(s: seq<byte>, g: Books, ring: seq<nat>, a: Area, base: nat, i: nat)
    requires Gluing(s, g, ring, {}, a, base) && i < CLASSES && g.lists[i] != []
    ensures GetU32(s, Head(base, i)) == g.lists[i][0] && 0 < g.lists[i][0] && g.lists[i][0] + 12 <= base
    ensures base + 4 * CLASSES <= |s|
    ensures Gluing(Removed(s, Head(base, i)), Detach(g, i), ring, {g.lists[i][0]}, a, base)
    ensures SameOutside(s, Removed(s, Head(base, i)), g, base)
  {
    hide GetU32, PutU32, GetU16, Tiles, Grid;
    var b := g.lists[i][0];
    assert b in g.t.blocks && b !in Elements(ring);
    BlockBounds(s, g, Elements(ring) + {}, a, base, b);
    RemoveStep(s, g, Elements(ring) + {}, a, base, i);
    assert Elements(ring) + {} + {b} == Elements(ring) + {b};
    var r := Removed(s, Head(base, i));
    GatherRemoveRing(s, g, ring, a, base, i);
  }

  lemma GatherFirst(s: seq<byte>, g: Books, ring: seq<nat>, a: Area, base: nat, i: nat, b: nat)
    requires Gluing(s, g, ring, {}, a, base) && i < CLASSES && g.lists[i] != [] && b == g.lists[i][0]
    ensures GetU32(s, Head(base, i)) == b && 0 < b && b + 12 <= base
    ensures b in g.t.blocks && g.t.blocks[b] == Units(i) && b !in ring
    ensures Gluing(Removed(s, Head(base, i)), Detach(g, i), ring, {b}, a, base)
    ensures SameOutside(s, Removed(s, Head(base, i)), g, base)
    ensures a.end < |s| && Removed(s, Head(base, i))[a.end] == s[a.end]
  {
    hide Consistent, Ring, Stamped, Distinct, GetU32, PutU32, Removed, Elements, SameOutside, Detach;
    ListedBlock(s, g, ring, {}, a, base, i);
    GatherRemove(s, g, ring, a, base, i);
    EndKept(s, Removed(s, Head(base, i)), g, Elements(ring) + {}, a, base);
  }

  lemma GlueHead(s: seq<byte>, g: Books, ring: seq<nat>, a: Area, base: nat, i: nat)
    requires Gluing(s, g, ring, {}, a, base) && i < CLASSES
    ensures base + 4 * CLASSES <= |s|
    ensures GetU32(s, Head(base, i)) == 0 <==> g.lists[i] == []
  {
    EmptyHead(s, g, Elements(ring) + {}, a, base, i);
  }

  lemma ListedBlock(s: seq<byte>, g: Books, ring: seq<nat>, extra: set<nat>, a: Area, base: nat, i: nat)
    requires Gluing(s, g, ring, extra, a, base) && i < CLASSES && g.lists[i] != []
    ensures var b := g.lists[i][0]; b in g.t.blocks && g.t.blocks[b] == Units(i) && b !in ring
  {
    assert g.lists[i][0] !in Elements(ring) + extra;
  }

  lemma GatherRemoveRing(s: seq<byte>, g: Books, ring: seq<nat>, a: Area, base: nat, i: nat)
    requires Gluing(s, g, ring, {}, a, base) && i < CLASSES && GetU32(s, Head(base, i)) + 4 <= base
    ensures Ring(Removed(s, Head(base, i)), ring, base + 4 * CLASSES)
    ensures Stamped(Removed(s, Head(base, i)), ring, g.t.blocks)
  {
    hide GetU32, PutU32, GetU16, Held, Chains;
    var r := Removed(s, Head(base, i));
    forall k | 0 <= k < |ring| ensures ring[k] + 12 <= base {
      BlockInside(g.t, a, ring[k]);
    }
    RingFrame(s, r, ring, base + 4 * CLASSES);
    StampedFrame(s, r, ring, g.t.blocks, [], base);
  }

  lemma DetachedBlock(s: seq<byte>, g: Books, detached: set<nat>, a: Area, base: nat, b: nat)
    requires Consistent(s, g, detached, a, base) && b in detached
    ensures b in g.t.blocks && b !in g.live
  {
  }

  lemma RingNodes(s: seq<byte>, ring: seq<nat>, sentinel: nat)
    requires Ring(s, ring, sentinel)
    ensures Nodes(s, ring, sentinel)
  {
  }

  lemma LinkStamped(s: seq<byte>, r: seq<byte>, blocks: map<nat, nat>, ring: seq<nat>, sentinel: nat, b: nat)
    requires Stamped(s, ring, blocks) && Nodes(s, ring, sentinel)
    requires forall k | 0 <= k < |ring| :: ring[k] == b || Apart(b, ring[k])
    requires OnlyNodes(s, r, [b] + ring, 4, 12, sentinel)
    ensures Stamped(r, ring, blocks)
  {
    hide GetU16, Stamped, OnlyNodes;
    forall j, k | 0 <= j < |[b] + ring| && 0 <= k < |ring|
      ensures ([b] + ring)[j] == ring[k] || Apart(([b] + ring)[j], ring[k])
    {
      if j > 0 { assert ([b] + ring)[j] == ring[j - 1]; }
    }
    StampedFrame(s, r, ring, blocks, [b] + ring, sentinel);
  }

  lemma ConsElements(ring: seq<nat>, b: nat)
    ensures Elements([b] + ring) == Elements(ring) + {b}
  {
    assert forall x :: x in [b] + ring <==> x == b || x in ring;
  }

  lemma GatherLink(s: seq<byte>, g: Books, ring: seq<nat>, a: Area, base: nat, b: nat)
    requires Gluing(s, g, ring, {b}, a, base) && b !in ring
    requires CanInsert(s, b, base + 4 * CLASSES) && b + 12 <= base
    ensures var r := LinkedIn(s, b, base + 4 * CLASSES);
            && Consistent(r, g, Elements([b] + ring), a, base)
            && Ring(r, [b] + ring, base + 4 * CLASSES)
            && Stamped(r, ring, g.t.blocks)
            && SameOutside(s, r, g, base)
  {
    GatherApart(s, g, ring, a, base, b);
    hide GetU32, Consistent, Stamped, Ring, CanInsert, LinkedIn, OnlyNodes, SameOutside, Elements, Distinct, Nodes;
    NodeFacts(s, g, ring, {b}, a, base, b);
    RingInsert(s, ring, base + 4 * CLASSES, b);
    ConsElements(ring, b);
    var r := LinkedIn(s, b, base + 4 * CLASSES);
    WriteFrame(s, r, g, Elements(ring) + {b}, a, base, [b] + ring, 4, 12);
    RingNodes(s, ring, base + 4 * CLASSES);
    LinkStamped(s, r, g.t.blocks, ring, base + 4 * CLASSES, b);
  }

  lemma GatherRoom(s: seq<byte>, g: Books, ring: seq<nat>, a: Area, base: nat, b: nat)
    requires Gluing(s, g, ring, {b}, a, base) && b !in ring
    ensures CanInsert(s, b, base + 4 * CLASSES) && b + 12 <= base
  {
    hide GetU32, Consistent, Stamped, Ring, Distinct, Elements;
    GatherApart(s, g, ring, a, base, b);
    RingHead(s, ring, base + 4 * CLASSES);
    hide Gluing;
  }

  lemma RingHead(s: seq<byte>, ring: seq<nat>, sentinel: nat)
    requires Ring(s, ring, sentinel)
    ensures sentinel + 12 <= |s| && GetU32(s, sentinel + 4) + 12 <= |s|
  {
    hide GetU32;
    assert Linked(s, ring, sentinel, 0);
  }

  lemma GatherApart(s: seq<byte>, g: Books, ring: seq<nat>, a: Area, base: nat, b: nat)
    requires Gluing(s, g, ring, {b}, a, base)
    ensures b + 12 <= base && Apart(b, base + 4 * CLASSES) && base + 4 * CLASSES + 12 <= |s| < 0x1_0000_0000
    ensures Distinct(ring) && Consistent(s, g, Elements(ring) + {b}, a, base)
  {
    assert b in Elements(ring) + {b};
    DetachedBlock(s, g, Elements(ring) + {b}, a, base, b);
    BlockBounds(s, g, Elements(ring) + {b}, a, base, b);
  }

  /** The two half-words gluing writes at the start of a free block. */
  function Marked(s: seq<byte>, b: nat, units: nat): (r: seq<byte>)
    requires b + 4 <= |s| && units < 0x1_0000
    ensures |r| == |s| && GetU16(r, b) == STAMP && GetU16(r, b + 2) == units
    ensures forall x :: 0 <= x < |s| && !(b <= x < b + 4) ==> r[x] == s[x]
  {
    var m := PutU16(s, b, STAMP);
    SameHalf(m, PutU16(m, b + 2, units), b);
    PutU16(m, b + 2, units)
  }

  lemma GatherMark(s: seq<byte>, g: Books, ring: seq<nat>, a: Area, base: nat, b: nat)
    requires Consistent(s, g, Elements([b] + ring), a, base) && Distinct([b] + ring)
    requires Ring(s, [b] + ring, base + 4 * CLASSES) && Stamped(s, ring, g.t.blocks)
    requires b in g.t.blocks && g.t.blocks[b] <= 128 && b + 12 <= base
    ensures Gluing(Marked(s, b, g.t.blocks[b]), g, [b] + ring, {}, a, base)
    ensures SameOutside(s, Marked(s, b, g.t.blocks[b]), g, base)
  {
    hide GetU32, GetU16, Chains, Held, Tiles, Grid;
    var all := Elements([b] + ring);
    var r := Marked(s, b, g.t.blocks[b]);
    assert ([b] + ring)[0] == b;
    assert forall x :: b <= x < b + 4 ==> InNode([b], 0, 4, x) by {
      assert [b][0] == b;
    }
    WriteFrame(s, r, g, all, a, base, [b], 0, 4);
    forall k | 0 <= k < |[b] + ring| ensures ([b] + ring)[k] == b || Apart(b, ([b] + ring)[k]) {
      if k > 0 { assert Apart(([b] + ring)[0], ([b] + ring)[k]); }
    }
    LowWordFrame(s, r, [b] + ring, base + 4 * CLASSES, b);
    assert all + {} == all;
    forall k | 0 <= k < |[b] + ring|
      ensures var q := ([b] + ring)[k];
              q + 4 <= |r| && q in g.t.blocks && GetU16(r, q) == STAMP && GetU16(r, q + 2) == g.t.blocks[q]
    {
      if k > 0 {
        assert ([b] + ring)[k] == ring[k - 1];
        SameHalf(s, r, ring[k - 1]);
        SameHalf(s, r, ring[k - 1] + 2);
      }
    }
  }

  lemma GatherDistinct(ring: seq<nat>, b: nat)
    requires Distinct(ring) && b !in ring
    ensures Distinct([b] + ring)
  {
  }

  // ---- phase 2: neighbouring free blocks are merged ----

  ghost predicate NoneListed(lists: FreeLists) {
    forall i | 0 <= i < CLASSES :: lists[i] == []
  }

  /** Where a scan must not mistake foreign bytes for a free block. */
  ghost predicate Guarded(s: seq<byte>, a: Area) {
    && a.low <= a.high && a.high <= a.end && a.end + 2 <= |s|
    && s[a.end] == 0
    && (a.low < a.high ==> s[a.low] == 0)
  }

  /** A stamp found just behind a ring block belongs to another ring block. */
  lemma StampMeansRing(s: seq<byte>, g: Books, ring: seq<nat>, a: Area, base: nat, b: nat)
    requires Gluing(s, g, ring, {}, a, base) && NoneListed(g.lists) && b in ring
    requires Unstamped(s, g.live) && Guarded(s, a)
    ensures b in g.t.blocks && b + UNIT * g.t.blocks[b] + 4 <= |s|
    ensures GetU16(s, b + UNIT * g.t.blocks[b]) == STAMP ==> b + UNIT * g.t.blocks[b] in ring
  {
    var all := Elements(ring) + {};
    assert b in all;
    DetachedBlock(s, g, all, a, base, b);
    BlockBounds(s, g, all, a, base, b);
    NextBoundary(g.t, a, b);
    var e := b + UNIT * g.t.blocks[b];
    if e in g.t.blocks && e !in g.live {
      OnlyRing(g, ring, e);
    }
  }

  lemma OnlyRing(g: Books, ring: seq<nat>, e: nat)
    requires Held(g, Elements(ring) + {}) && NoneListed(g.lists)
    requires e in g.t.blocks && e !in g.live
    ensures e in ring
  {
    var c := ClassFor(Max(1, Min(g.t.blocks[e], 128)));
    assert g.lists[c] == [];
  }

  /** What the heap layout says about one detached block and the ring. */
  lemma NodeFacts(s: seq<byte>, g: Books, ring: seq<nat>, extra: set<nat>, a: Area, base: nat, b: nat)
    requires Gluing(s, g, ring, extra, a, base) && (b in ring || b in extra)
    ensures b in g.t.blocks && b !in g.live && 0 < b && b + 12 <= b + UNIT * g.t.blocks[b] <= a.end < base
    ensures base + 4 * CLASSES + 12 <= |s| < 0x1_0000_0000
    ensures forall k | 0 <= k < |ring| :: ring[k] == b || Apart(b, ring[k])
    ensures forall k | 0 <= k < |ring| :: ring[k] + 12 <= base
  {
    var all := Elements(ring) + extra;
    assert b in all;
    DetachedBlock(s, g, all, a, base, b);
    BlockBounds(s, g, all, a, base, b);
    forall k | 0 <= k < |ring|
      ensures (ring[k] == b || Apart(b, ring[k])) && ring[k] + 12 <= base
    {
      assert ring[k] in all;
      DetachedBlock(s, g, all, a, base, ring[k]);
      BlockBounds(s, g, all, a, base, ring[k]);
      if ring[k] != b { Disjoint(g.t, a, b, ring[k]); }
    }
  }

  lemma Unlink(s: seq<byte>, g: Books, ring: seq<nat>, a: Area, base: nat, j: nat)
    requires Gluing(s, g, ring, {}, a, base) && j < |ring|
    ensures ring[j] + 12 <= base && CanUnlink(s, ring[j])
    ensures Gluing(LinkedOut(s, ring[j]), g, Without(ring, j), {ring[j]}, a, base)
    ensures SameOutside(s, LinkedOut(s, ring[j]), g, base)
    ensures Stamped(LinkedOut(s, ring[j]), ring, g.t.blocks)
  {
    hide GetU32, PutU32, GetU16, Consistent, LinkedOut, CanUnlink, Elements, Distinct, OnlyNodes, Ring, Stamped;
    WithoutElements(ring, j);
    NodeFacts(s, g, ring, {}, a, base, ring[j]);
    RingRemove(s, ring, base + 4 * CLASSES, j);
    var r := LinkedOut(s, ring[j]);
    assert Elements(ring) + {} == Elements(Without(ring, j)) + {ring[j]};
    WriteFrame(s, r, g, Elements(ring) + {}, a, base, ring, 4, 12);
    RingNodes(s, ring, base + 4 * CLASSES);
    UnlinkStamped(s, r, g.t.blocks, ring, base + 4 * CLASSES, j);
  }

  lemma UnlinkStamped(s: seq<byte>, r: seq<byte>, blocks: map<nat, nat>, ring: seq<nat>, sentinel: nat, j: nat)
    requires Stamped(s, ring, blocks) && Nodes(s, ring, sentinel) && j < |ring|
    requires OnlyNodes(s, r, ring, 4, 12, sentinel)
    ensures Stamped(r, Without(ring, j), blocks) && Stamped(r, ring, blocks)
  {
    hide GetU16, Stamped, OnlyNodes;
    StampedFrame(s, r, ring, blocks, ring, sentinel);
    StampedWithout(r, ring, blocks, j);
  }

  lemma StampedWithout(s: seq<byte>, ring: seq<nat>, blocks: map<nat, nat>, j: nat)
    requires Stamped(s, ring, blocks) && j < |ring|
    ensures Stamped(s, Without(ring, j), blocks)
  {
    hide GetU16;
    forall k | 0 <= k < |Without(ring, j)|
      ensures Without(ring, j)[k] == ring[if k < j then k else k + 1] {}
  }

  lemma WithoutElements(ring: seq<nat>, j: nat)
    requires Distinct(ring) && j < |ring|
    ensures Distinct(Without(ring, j)) && ring[j] !in Without(ring, j)
    ensures Elements(Without(ring, j)) !! {ring[j]}
    ensures Elements(ring) == Elements(Without(ring, j)) + {ring[j]}
    ensures forall x | x in ring && x != ring[j] :: x in Without(ring, j)
  {
    var w := Without(ring, j);
    assert forall k | 0 <= k < |w| :: w[k] == ring[if k < j then k else k + 1];
    forall x | x in ring && x != ring[j] ensures x in w {
      var k :| 0 <= k < |ring| && ring[k] == x;
      assert w[if k < j then k else k - 1] == x;
    }
  }

  /** The block's length grows over its unlinked successor. */
  lemma MergeWrite(s: seq<byte>, g: Books, ring: seq<nat>, a: Area, base: nat, b: nat, e: nat, n: nat)
    requires CanJoin(g.t, b) && b in ring && e == b + UNIT * g.t.blocks[b]
    requires n == g.t.blocks[b] + g.t.blocks[e] < 0x1_0000
    requires Gluing(s, g, ring, {e}, a, base)
    ensures b + 12 <= base && b + 4 <= |s|
    ensures Gluing(PutU16(s, b + 2, n), g.(t := Join(g.t, b)), ring, {}, a, base)
    ensures SameOutside(s, PutU16(s, b + 2, n), g, base) && Conserved(g, g.(t := Join(g.t, b)))
  {
    hide GetU32, PutU32, GetU16, PutU16, Consistent, Ring, Stamped, Conserved, Distinct, Elements, SameOutside;
    var all := Elements(ring) + {e};
    NodeFacts(s, g, ring, {e}, a, base, b);
    ExtraElement(ring, {e}, e);
    ExtraElement(ring, {e}, b);
    var r := PutU16(s, b + 2, n);
    MergeConsistent(s, r, g, all, a, base, b);
    MergeBytes(s, r, b, base + 4 * CLASSES + 12);
    LowWordFrame(s, r, ring, base + 4 * CLASSES, b);
    MergeStamped(s, r, g, ring, b, base);
  }

  /** Unlinking the successor of ring block `b`, before its length is added. */
  lemma MergeFirst(s: seq<byte>, g: Books, ring: seq<nat>, a: Area, base: nat, b: nat, e: nat, j: nat)
    requires Gluing(s, g, ring, {}, a, base) && j < |ring| && ring[j] == e
    requires b in ring && b in g.t.blocks && e == b + UNIT * g.t.blocks[b]
    ensures e + 12 <= base && CanUnlink(s, e)
    ensures CanJoin(g.t, b) && b in Without(ring, j)
    ensures Gluing(LinkedOut(s, e), g, Without(ring, j), {e}, a, base)
    ensures SameOutside(s, LinkedOut(s, e), g, base)
    ensures a.end < |s| && LinkedOut(s, e)[a.end] == s[a.end]
    ensures b + 4 <= |s| && GetU16(LinkedOut(s, e), b + 2) == g.t.blocks[b]
    ensures e + 4 <= |s| && GetU16(LinkedOut(s, e), e + 2) == g.t.blocks[e]
  {
    hide GetU32, PutU32, GetU16, Consistent, LinkedOut, CanUnlink, Ring, SameOutside;
    Unlink(s, g, ring, a, base, j);
    WithoutElements(ring, j);
    NodeFacts(s, g, ring, {}, a, base, b);
    NodeFacts(s, g, ring, {}, a, base, e);
    EndKept(s, LinkedOut(s, e), g, Elements(ring) + {}, a, base);
    var k :| 0 <= k < |ring| && ring[k] == b;
  }

  lemma MergeSecond(s: seq<byte>, g: Books, ring: seq<nat>, a: Area, base: nat, b: nat, e: nat, n: nat)
    requires CanJoin(g.t, b) && b in ring && e == b + UNIT * g.t.blocks[b]
    requires n == g.t.blocks[b] + g.t.blocks[e] < 0x1_0000
    requires Gluing(s, g, ring, {e}, a, base)
    ensures b + 12 <= base && b + 4 <= |s|
    ensures Gluing(PutU16(s, b + 2, n), g.(t := Join(g.t, b)), ring, {}, a, base)
    ensures SameOutside(s, PutU16(s, b + 2, n), g, base) && Conserved(g, g.(t := Join(g.t, b)))
    ensures a.end < |s| && PutU16(s, b + 2, n)[a.end] == s[a.end]
  {
    hide GetU32, PutU32, GetU16, PutU16, Consistent, Ring, SameOutside, Stamped, Join;
    MergeWrite(s, g, ring, a, base, b, e, n);
    EndKept(s, PutU16(s, b + 2, n), g, Elements(ring) + {e}, a, base);
  }

  lemma MergeConsistent(s: seq<byte>, r: seq<byte>, g: Books, all: set<nat>, a: Area, base: nat, b: nat)
    requires CanJoin(g.t, b) && Consistent(s, g, all, a, base)
    requires Elements([b]) <= all && b in all && b + UNIT * g.t.blocks[b] in all
    requires |s| == |r| && b + 4 <= |s| && base + 4 * CLASSES <= |s|
    requires forall x | 0 <= x < |s| && !(b + 2 <= x < b + 4) :: r[x] == s[x]
    ensures Consistent(r, g.(t := Join(g.t, b)), all - {b + UNIT * g.t.blocks[b]}, a, base)
    ensures SameOutside(s, r, g, base) && Conserved(g, g.(t := Join(g.t, b)))
  {
    hide Consistent, Conserved, SameOutside;
    MergeBytes(s, r, b, base + 4 * CLASSES);
    WriteFrame(s, r, g, all, a, base, [b], 0, 4);
    JoinStep(r, g, all, a, base, b);
  }

  lemma ExtraElement(ring: seq<nat>, extra: set<nat>, b: nat)
    requires Elements(ring) !! extra && (b in extra || b in ring)
    ensures b in Elements(ring) + extra && Elements([b]) <= Elements(ring) + extra
    ensures b in extra ==> b !in ring && Elements(ring) + extra - {b} == Elements(ring) + (extra - {b})
    ensures extra == {b} ==> extra - {b} == {}
  {
  }

  lemma MergeBytes(s: seq<byte>, r: seq<byte>, b: nat, limit: nat)
    requires |s| == |r| && b + 4 <= |s| && limit <= |s|
    requires forall x | 0 <= x < |s| && !(b + 2 <= x < b + 4) :: r[x] == s[x]
    ensures OnlyNodes(s, r, [b], 0, 4, limit)
  {
    assert [b][0] == b;
  }

  lemma MergeStamped(s: seq<byte>, r: seq<byte>, g: Books, ring: seq<nat>, b: nat, base: nat)
    requires CanJoin(g.t, b) && b + UNIT * g.t.blocks[b] !in ring && Stamped(s, ring, g.t.blocks)
    requires forall k | 0 <= k < |ring| :: ring[k] == b || Apart(b, ring[k])
    requires b + 4 <= |s| && g.t.blocks[b] + g.t.blocks[b + UNIT * g.t.blocks[b]] < 0x1_0000
    requires r == PutU16(s, b + 2, g.t.blocks[b] + g.t.blocks[b + UNIT * g.t.blocks[b]])
    ensures Stamped(r, ring, Join(g.t, b).blocks)
  {
    hide GetU16, PutU16;
    forall k | 0 <= k < |ring|
      ensures GetU16(r, ring[k]) == STAMP && GetU16(r, ring[k] + 2) == Join(g.t, b).blocks[ring[k]]
    {
      SameHalf(s, r, ring[k]);
      if ring[k] != b { SameHalf(s, r, ring[k] + 2); }
    }
  }

  // ---- phase 3: the merged blocks are cut up and listed again ----

  lemma DealSplit(s: seq<byte>, g: Books, ring: seq<nat>, a: Area, base: nat, b: nat, k: nat)
    requires CanSplit(g.t, b, k) && Gluing(s, g, ring, {b}, a, base)
    ensures Gluing(s, g.(t := Split(g.t, b, k)), ring, {b, b + UNIT * k}, a, base)
    ensures Conserved(g, g.(t := Split(g.t, b, k))) && Parts(g.t, Split(g.t, b, k), b, k)
  {
    hide Consistent, Ring, Stamped, GetU16, Conserved, Parts, Split;
    var all, c := Elements(ring) + {b}, b + UNIT * k;
    SplitFresh(s, g, ring, a, base, b, k);
    ExtraElement(ring, {b}, b);
    SplitStep(s, g, all, a, base, b, k);
    assert all + {c} == Elements(ring) + {b, c};
    SplitStamped(s, g, ring, a, base, b, k);
  }

  lemma SplitStamped(s: seq<byte>, g: Books, ring: seq<nat>, a: Area, base: nat, b: nat, k: nat)
    requires CanSplit(g.t, b, k) && b !in ring && b + UNIT * k !in ring && Stamped(s, ring, g.t.blocks)
    ensures Stamped(s, ring, Split(g.t, b, k).blocks)
  {
    hide GetU16;
  }

  lemma SplitFresh(s: seq<byte>, g: Books, ring: seq<nat>, a: Area, base: nat, b: nat, k: nat)
    requires CanSplit(g.t, b, k) && Gluing(s, g, ring, {b}, a, base)
    ensures b + UNIT * k !in ring
  {
    hide Ring, Stamped, Chains;
    SplitTiles(g.t, a, b, k);
    var c := b + UNIT * k;
    if c in ring {
      NodeFacts(s, g, ring, {b}, a, base, c);
    }
  }

  lemma DealInsert(s: seq<byte>, g: Books, ring: seq<nat>, extra: set<nat>, a: Area, base: nat, i: nat, b: nat)
    requires Gluing(s, g, ring, extra, a, base) && b in extra
    requires i < CLASSES && b in g.t.blocks && g.t.blocks[b] == Units(i)
    ensures b + 12 <= base && base + 4 * CLASSES <= |s| < 0x1_0000_0000
    ensures Gluing(Inserted(s, Head(base, i), b), Attach(g, i, b), ring, extra - {b}, a, base)
    ensures SameOutside(s, Inserted(s, Head(base, i), b), g, base)
  {
    var all := Elements(ring) + extra;
    ExtraElement(ring, extra, b);
    NodeFacts(s, g, ring, extra, a, base, b);
    hide Consistent, GetU32, PutU32, GetU16, Inserted, Ring, Stamped, Distinct, Elements;
    InsertStep(s, g, all, a, base, i, b);
    DealRing(s, g, ring, a, base, i, b);
  }

  lemma DealRing(s: seq<byte>, g: Books, ring: seq<nat>, a: Area, base: nat, i: nat, b: u32)
    requires Ring(s, ring, base + 4 * CLASSES) && Stamped(s, ring, g.t.blocks)
    requires i < CLASSES && b + 12 <= base
    requires forall k | 0 <= k < |ring| :: ring[k] + 12 <= base && Apart(b, ring[k])
    ensures Ring(Inserted(s, Head(base, i), b), ring, base + 4 * CLASSES)
    ensures Stamped(Inserted(s, Head(base, i), b), ring, g.t.blocks)
  {
    hide GetU32, PutU32, GetU16, Inserted;
    var r := Inserted(s, Head(base, i), b);
    RingFrame(s, r, ring, base + 4 * CLASSES);
    InsertStamped(s, r, ring, g.t.blocks, base);
  }

  lemma InsertStamped(s: seq<byte>, r: seq<byte>, ring: seq<nat>, blocks: map<nat, nat>, base: nat)
    requires |s| == |r| && Stamped(s, ring, blocks)
    requires forall k, x | 0 <= k < |ring| && ring[k] <= x < ring[k] + 4 && x < |s| :: r[x] == s[x]
    ensures Stamped(r, ring, blocks)
  {
    hide GetU16;
    forall k | 0 <= k < |ring|
      ensures GetU16(r, ring[k]) == STAMP && GetU16(r, ring[k] + 2) == blocks[ring[k]]
    {
      SameHalf(s, r, ring[k]);
      SameHalf(s, r, ring[k] + 2);
    }
  }

  // ---- bounds on the scans ----

  lemma QuotientApart(x: nat, y: nat)
    requires x != y && OnGrid(x, y)
    ensures x / UNIT != y / UNIT
  {
  }

  /** The ring never holds more blocks than the step limit of the two scans. */
  lemma RingBound(s: seq<byte>, g: Books, ring: seq<nat>, extra: set<nat>, a: Area, base: nat)
    requires Gluing(s, g, ring, extra, a, base)
    ensures |ring| <= |s| / 12 + 1
  {
    var q := seq(|ring|, k requires 0 <= k < |ring| => ring[k] / UNIT);
    forall k | 0 <= k < |ring| ensures q[k] < |s| / 12 + 1 && OnGrid(ring[k], a.end) {
      NodeFacts(s, g, ring, extra, a, base, ring[k]);
    }
    forall j, k | 0 <= j < k < |ring| ensures q[j] != q[k] {
      QuotientApart(ring[j], ring[k]);
    }
    PigeonHole(q, |s| / 12 + 1);
  }

  lemma RingNext(s: seq<byte>, ring: seq<nat>, sentinel: nat, k: nat)
    requires Ring(s, ring, sentinel) && k <= |ring|
    ensures sentinel + 12 <= |s| && At(ring, sentinel, k) + 12 <= |s|
    ensures GetU32(s, At(ring, sentinel, k) + 4) == At(ring, sentinel, k + 1)
    ensures At(ring, sentinel, k + 1) == sentinel <==> k == |ring|
  {
    assert Linked(s, ring, sentinel, k);
  }

  lemma BlockUnits(s: seq<byte>, g: Books, ring: seq<nat>, extra: set<nat>, a: Area, base: nat, k: nat)
    requires Gluing(s, g, ring, extra, a, base) && k < |ring|
    ensures ring[k] in g.t.blocks && ring[k] + 4 <= |s|
    ensures GetU16(s, ring[k]) == STAMP && GetU16(s, ring[k] + 2) == g.t.blocks[ring[k]] >= 1
    ensures ring[k] + UNIT * g.t.blocks[ring[k]] <= a.end
  {
    NodeFacts(s, g, ring, extra, a, base, ring[k]);
  }

  lemma ConservedTrans(g: Books, g1: Books, g2: Books)
    requires Conserved(g, g1) && Conserved(g1, g2)
    ensures Conserved(g, g2)
  {
  }

  lemma OutsideTrans(s: seq<byte>, m: seq<byte>, r: seq<byte>, g: Books, g1: Books, base: nat)
    requires |s| == |m| == |r| && Conserved(g, g1)
    requires SameOutside(s, m, g, base) && SameOutside(m, r, g1, base)
    ensures SameOutside(s, r, g, base)
  {
  }

  lemma StillGuarded(s: seq<byte>, r: seq<byte>, g: Books, a: Area, base: nat)
    requires |s| == |r| && Tiles(g.t, a) && a.end < base && Guarded(s, a) && Unstamped(s, g.live)
    requires forall b | b in g.live :: b in g.t.blocks
    requires SameOutside(s, r, g, base)
    ensures Guarded(r, a) && Unstamped(r, g.live)
  {
    hide GetU16;
    assert !InArea(a, a.end);
    assert a.low < a.high ==> !InArea(a, a.low);
    forall b | b in g.live && b + 2 <= |r| ensures GetU16(r, b) == GetU16(s, b) {
      Covered(g.t, a, b, b);
      Covered(g.t, a, b, b + 1);
      SameHalf(s, r, b);
    }
  }

  /** The byte behind the area survives every step confined to free bytes. */
  lemma EndKept(s: seq<byte>, r: seq<byte>, g: Books, detached: set<nat>, a: Area, base: nat)
    requires |s| == |r| && Consistent(s, g, detached, a, base) && SameOutside(s, r, g, base)
    ensures a.end < |s| && r[a.end] == s[a.end]
  {
    assert !InArea(a, a.end);
  }

  /** Everything one look behind a ring block may rely on. */
  ghost predicate Scanning(s: seq<byte>, g: Books, ring: seq<nat>, a: Area, base: nat) {
    && Gluing(s, g, ring, {}, a, base) && NoneListed(g.lists)
    && Unstamped(s, g.live) && Guarded(s, a)
  }

  lemma LookBehind(s: seq<byte>, g: Books, ring: seq<nat>, a: Area, base: nat, k: nat)
    requires Scanning(s, g, ring, a, base) && k < |ring|
    ensures ring[k] in g.t.blocks && ring[k] + 4 <= |s|
    ensures GetU16(s, ring[k] + 2) == g.t.blocks[ring[k]] >= 1
    ensures var e := ring[k] + UNIT * g.t.blocks[ring[k]];
            && e + 4 <= |s| < 0x1_0000_0000
            && (GetU16(s, e) == STAMP ==>
                  e in ring && e in g.t.blocks && GetU16(s, e + 2) == g.t.blocks[e])
            && (e in ring ==> GetU16(s, e) == STAMP)
  {
    hide Ring, Consistent, GetU16, Unstamped, Guarded, NoneListed, Elements;
    BlockUnits(s, g, ring, {}, a, base, k);
    NodeFacts(s, g, ring, {}, a, base, ring[k]);
    StampMeansRing(s, g, ring, a, base, ring[k]);
    var e := ring[k] + UNIT * g.t.blocks[ring[k]];
    if GetU16(s, e) == STAMP {
      var j :| 0 <= j < |ring| && ring[j] == e;
      BlockUnits(s, g, ring, {}, a, base, j);
    }
  }

  lemma ScanKept(s: seq<byte>, r: seq<byte>, g: Books, g': Books, ring: seq<nat>, ring': seq<nat>, a: Area, base: nat)
    requires Scanning(s, g, ring, a, base) && |s| == |r| && SameOutside(s, r, g, base)
    requires Gluing(r, g', ring', {}, a, base) && g'.lists == g.lists && g'.live == g.live
    ensures Scanning(r, g', ring', a, base)
  {
    hide Ring, Stamped, GetU16;
    StillGuarded(s, r, g, a, base);
  }

  /** Where the cursor of the merging scan stands after a block is unlinked. */
  lemma CursorAfter(ring: seq<nat>, k: nat, j: nat)
    requires k < |ring| && j < |ring| && j != k
    ensures var k' := if j < k then k - 1 else k;
            k' < |Without(ring, j)| && Without(ring, j)[k'] == ring[k] && |Without(ring, j)| == |ring| - 1
  {
  }

  lemma SentinelNext(s: seq<byte>, g: Books, ring: seq<nat>, extra: set<nat>, a: Area, base: nat, k: nat)
    requires Gluing(s, g, ring, extra, a, base) && k <= |ring|
    ensures base + 4 * CLASSES + 12 <= |s| && At(ring, base + 4 * CLASSES, k) + 12 <= |s|
    ensures GetU32(s, At(ring, base + 4 * CLASSES, k) + 4) == At(ring, base + 4 * CLASSES, k + 1)
    ensures At(ring, base + 4 * CLASSES, k + 1) == base + 4 * CLASSES <==> k == |ring|
    ensures k < |ring| ==> At(ring, base + 4 * CLASSES, k + 1) == ring[k]
  {
    hide Consistent, Stamped;
    RingNext(s, ring, base + 4 * CLASSES, k);
  }

  /** Taking the first ring block out, before it is cut up. */
  lemma DealFirst(s: seq<byte>, g: Books, ring: seq<nat>, a: Area, base: nat, b: nat)
    requires Gluing(s, g, ring, {}, a, base) && ring != [] && b == ring[0]
    ensures b + 12 <= base && base + 4 * CLASSES + 12 <= |s| < 0x1_0000_0000
    ensures CanUnlink(s, b)
    ensures Gluing(LinkedOut(s, b), g, ring[1..], {b}, a, base)
    ensures SameOutside(s, LinkedOut(s, b), g, base)
    ensures a.end < |s| && LinkedOut(s, b)[a.end] == s[a.end]
    ensures b in g.t.blocks && g.t.blocks[b] >= 1
    ensures GetU16(LinkedOut(s, b), b + 2) == g.t.blocks[b]
  {
    hide GetU32, PutU32, GetU16, Consistent, LinkedOut, CanUnlink, Ring, SameOutside, Elements;
    assert Without(ring, 0) == ring[1..];
    NodeFacts(s, g, ring, {}, a, base, b);
    Unlink(s, g, ring, a, base, 0);
    BlockUnits(s, g, ring, {}, a, base, 0);
    EndKept(s, LinkedOut(s, b), g, Elements(ring) + {}, a, base);
  }

  /** Listing one part of the block being cut up. */
  lemma DealNext(s: seq<byte>, g: Books, ring: seq<nat>, extra: set<nat>, a: Area, base: nat, i: nat, b: nat)
    requires Gluing(s, g, ring, extra, a, base) && b in extra
    requires i < CLASSES && b in g.t.blocks && g.t.blocks[b] == Units(i)
    ensures b + 12 <= base && base + 4 * CLASSES <= |s| < 0x1_0000_0000
    ensures Gluing(Inserted(s, Head(base, i), b), Attach(g, i, b), ring, extra - {b}, a, base)
    ensures SameOutside(s, Inserted(s, Head(base, i), b), g, base)
    ensures a.end < |s| && Inserted(s, Head(base, i), b)[a.end] == s[a.end]
  {
    hide GetU32, PutU32, GetU16, Consistent, Inserted, Ring, SameOutside, Elements;
    DealInsert(s, g, ring, extra, a, base, i, b);
    EndKept(s, Inserted(s, Head(base, i), b), g, Elements(ring) + extra, a, base);
  }

  lemma ConservedSelf(g: Books, s: seq<byte>, base: nat)
    ensures Conserved(g, g) && SameOutside(s, s, g, base)
  {
  }

  /** An empty ring is a sentinel linked to itself. */
  lemma EmptyRing(s: seq<byte>, g: Books, a: Area, base: nat)
    requires Consistent(s, g, {}, a, base) && base + 4 * CLASSES + 12 <= |s|
    requires GetU32(s, base + 4 * CLASSES + 4) == base + 4 * CLASSES
    requires GetU32(s, base + 4 * CLASSES + 8) == base + 4 * CLASSES
    ensures Gluing(s, g, [], {}, a, base)
  {
    assert Elements([]) + {} == {};
    assert Linked(s, [], base + 4 * CLASSES, 0);
  }

  lemma RingGone(s: seq<byte>, g: Books, a: Area, base: nat)
    requires Gluing(s, g, [], {}, a, base)
    ensures Consistent(s, g, {}, a, base)
  {
    assert Elements([]) + {} == {};
  }

  /** A write into the gap or above the list heads is invisible to the books and to held blocks. */
  lemma Prepared(s: seq<byte>, r: seq<byte>, g: Books, a: Area, base: nat)
    requires Consistent(s, g, {}, a, base) && |r| == |s| && Unstamped(s, g.live)
    requires forall x | 0 <= x < |s| && x != a.low && x < base + 4 * CLASSES :: r[x] == s[x]
    requires a.low == a.high ==> r[a.low] == s[a.low]
    ensures Consistent(r, g, {}, a, base) && Unstamped(r, g.live) && KeptSame(s, r, g, a, base)
    ensures a.end < |s| && r[a.end] == s[a.end] && a.low <= a.high <= a.end
  {
    hide GetU16, GetU32, Chains, Held;
    assert a.low < a.high ==> !InArea(a, a.low);
    HeldWrite(s, r, g, a, base);
    HeldInside(s, g, a, base);
    forall b | b in g.live && b + 2 <= |r| ensures GetU16(r, b) == GetU16(s, b) {
      Covered(g.t, a, b, b);
      Covered(g.t, a, b, b + 1);
      SameHalf(s, r, b);
    }
  }

  lemma HeldInside(s: seq<byte>, g: Books, a: Area, base: nat)
    requires Consistent(s, g, {}, a, base)
    ensures forall b | b in g.live :: b in g.t.blocks && g.t.blocks[b] >= 1
  {
  }

  lemma OutsideKept(s: seq<byte>, m: seq<byte>, r: seq<byte>, g: Books, a: Area, base: nat)
    requires KeptSame(s, m, g, a, base) && |r| == |m| && SameOutside(m, r, g, base)
    ensures KeptSame(s, r, g, a, base)
  {
  }

  lemma StillScanning(s: seq<byte>, r: seq<byte>, g: Books, g': Books, ring: seq<nat>, a: Area, base: nat)
    requires |s| == |r| && Consistent(s, g, {}, a, base) && Unstamped(s, g.live) && Guarded(s, a)
    requires SameOutside(s, r, g, base) && g'.live == g.live
    requires Gluing(r, g', ring, {}, a, base) && NoneListed(g'.lists)
    ensures Scanning(r, g', ring, a, base)
  {
    hide GetU16, Stamped, Ring;
    HeldInside(s, g, a, base);
    StillGuarded(s, r, g, a, base);
  }
}
