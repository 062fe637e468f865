/** Size classes, and the intrusive lists the allocator keeps inside the heap bytes. */
module PpmdLists {
  import opened Prelude
  import opened PpmdHeap

  const CLASSES: nat := 38

  /** Units of size class `i`: steps of 1, 2, 3 and then 4 units. */
  function Units(i: nat): (u: nat)
    requires i < CLASSES
    ensures 1 <= u <= 128
  {
    if i < 4 then i + 1
    else if i < 8 then 2 * i - 2
    else if i < 12 then 3 * i - 9
    else 4 * i - 20
  }

  /** The smallest class that holds `u` units. */
  function ClassFor(u: nat): (i: nat)
    requires 1 <= u <= 128
    ensures i < CLASSES && u <= Units(i)
    ensures i > 0 ==> Units(i - 1) < u
    ensures Units(i) - u <= 3
    ensures u <= 4 ==> i == u - 1
  {
    if u <= 4 then u - 1
    else if u <= 12 then (u + 3) / 2
    else if u <= 24 then (u + 11) / 3
    else (u + 23) / 4
  }

  lemma UnitsIncrease(i: nat, j: nat)
    requires i < j < CLASSES
    ensures Units(i) < Units(j)
  {
  }

  lemma ClassOfUnits(i: nat)
    requires i < CLASSES
    ensures ClassFor(Units(i)) == i
  {
    var c := ClassFor(Units(i));
    if c < i { UnitsIncrease(c, i); }
  }

  // ---- singly linked free lists ----

  type FreeLists = lists: seq<seq<nat>> | |lists| == CLASSES witness seq(CLASSES, i => [])

  function Link(list: seq<nat>, k: nat): nat {
    if k < |list| then list[k] else 0
  }

  /** Address of the head word of class `i`. */
  function Head(base: nat, i: nat): nat {
    base + 4 * i
  }

  ghost predicate Chained(s: seq<byte>, head: nat, list: seq<nat>)
    requires head + 4 <= |s|
  {
    && GetU32(s, head) == Link(list, 0)
    && forall k | 0 <= k < |list| ::
         0 < list[k] && list[k] + 4 <= |s| && GetU32(s, list[k]) == Link(list, k + 1)
  }

  ghost predicate Chains(s: seq<byte>, base: nat, lists: FreeLists) {
    && base + 4 * CLASSES <= |s|
    && (forall i | 0 <= i < CLASSES :: Chained(s, Head(base, i), lists[i]))
    && (forall i, k | 0 <= i < CLASSES && 0 <= k < |lists[i]| :: lists[i][k] + 4 <= base)
  }

  lemma ChainedFrame(s: seq<byte>, r: seq<byte>, head: nat, list: seq<nat>)
    requires |s| == |r| && head + 4 <= |s| && Chained(s, head, list)
    requires forall x :: head <= x < head + 4 ==> r[x] == s[x]
    requires forall k, x | 0 <= k < |list| && list[k] <= x < list[k] + 4 :: r[x] == s[x]
    ensures Chained(r, head, list)
  {
    SameWord(s, r, head);
    forall k | 0 <= k < |list| ensures GetU32(r, list[k]) == GetU32(s, list[k]) {
      SameWord(s, r, list[k]);
    }
  }

  /** The heap after `insert_node`. */
  function Inserted(s: seq<byte>, head: nat, node: u32): (r: seq<byte>)
    requires head + 4 <= |s| && node + 4 <= |s|
    ensures |r| == |s|
    ensures forall x :: 0 <= x < |s| && !(node <= x < node + 4) && !(head <= x < head + 4) ==> r[x] == s[x]
  {
    PutU32(PutU32(s, node, GetU32(s, head)), head, node)
  }

  /** The heap after `remove_node`. */
  function Removed(s: seq<byte>, head: nat): (r: seq<byte>)
    requires head + 4 <= |s| && GetU32(s, head) + 4 <= |s|
    ensures |r| == |s|
    ensures forall x :: 0 <= x < |s| && !(head <= x < head + 4) ==> r[x] == s[x]
  {
    PutU32(s, head, GetU32(s, GetU32(s, head)))
  }

  /** Inserting puts the node in front of its list and leaves every other list alone. */
  lemma InsertedChains(s: seq<byte>, base: nat, lists: FreeLists, i: nat, node: u32)
    requires Chains(s, base, lists) && i < CLASSES && 0 < node && node + 4 <= base
    requires forall j, k | 0 <= j < CLASSES && 0 <= k < |lists[j]| ::
               lists[j][k] + 4 <= node || node + 4 <= lists[j][k]
    ensures Chains(Inserted(s, Head(base, i), node), base, lists[i := [node] + lists[i]])
  {
    var r := Inserted(s, Head(base, i), node);
    var lists' := lists[i := [node] + lists[i]];
    forall j | 0 <= j < CLASSES ensures Chained(r, Head(base, j), lists'[j]) {
      assert Chained(s, Head(base, j), lists[j]);
      if j != i {
        ChainedFrame(s, r, Head(base, j), lists[j]);
      } else {
        InsertedChained(s, base, i, lists[i], node);
      }
    }
  }

  lemma InsertedChained(s: seq<byte>, base: nat, i: nat, list: seq<nat>, node: u32)
    requires i < CLASSES && base + 4 * CLASSES <= |s| && 0 < node && node + 4 <= base
    requires Chained(s, Head(base, i), list)
    requires forall k | 0 <= k < |list| :: list[k] + 4 <= base && (list[k] + 4 <= node || node + 4 <= list[k])
    ensures Chained(Inserted(s, Head(base, i), node), Head(base, i), [node] + list)
  {
    hide GetU32, PutU32;
    var head := Head(base, i);
    var m := PutU32(s, node, GetU32(s, head));
    var r := Inserted(s, head, node);
    var list' := [node] + list;
    forall k | 0 <= k < |list'|
      ensures 0 < list'[k] && list'[k] + 4 <= |r| && GetU32(r, list'[k]) == Link(list', k + 1)
    {
      if k == 0 {
        SameWord(m, r, node);
      } else {
        assert list'[k] == list[k - 1];
        SameWord(s, r, list[k - 1]);
      }
    }
  }

  lemma RemovedChains(s: seq<byte>, base: nat, lists: FreeLists, i: nat)
    requires Chains(s, base, lists) && i < CLASSES && lists[i] != []
    ensures GetU32(s, Head(base, i)) == lists[i][0] && lists[i][0] + 4 <= base
    ensures Chains(Removed(s, Head(base, i)), base, lists[i := lists[i][1..]])
  {
    var head := Head(base, i);
    assert Chained(s, head, lists[i]);
    assert lists[i][0] + 4 <= base;
    var r := Removed(s, head);
    var lists' := lists[i := lists[i][1..]];
    forall j | 0 <= j < CLASSES ensures Chained(r, Head(base, j), lists'[j]) {
      assert Chained(s, Head(base, j), lists[j]);
      if j != i {
        ChainedFrame(s, r, Head(base, j), lists[j]);
      } else {
        RemovedChained(s, base, i, lists[i]);
      }
    }
    forall j, k | 0 <= j < CLASSES && 0 <= k < |lists'[j]| ensures lists'[j][k] + 4 <= base {
      if j == i { assert lists'[j][k] == lists[j][k + 1]; }
    }
  }

  lemma RemovedChained(s: seq<byte>, base: nat, i: nat, list: seq<nat>)
    requires i < CLASSES && base + 4 * CLASSES <= |s| && list != []
    requires Chained(s, Head(base, i), list)
    requires forall k | 0 <= k < |list| :: list[k] + 4 <= base
    ensures Chained(Removed(s, Head(base, i)), Head(base, i), list[1..])
  {
    var head := Head(base, i);
    var r := Removed(s, head);
    assert GetU32(s, list[0]) == Link(list, 1);
    assert Link(list[1..], 0) == Link(list, 1);
    forall k | 0 <= k < |list[1..]|
      ensures 0 < list[1..][k] && list[1..][k] + 4 <= |r| && GetU32(r, list[1..][k]) == Link(list[1..], k + 1)
    {
      assert list[1..][k] == list[k + 1];
      SameWord(s, r, list[k + 1]);
    }
  }

  lemma ChainsFrame(s: seq<byte>, r: seq<byte>, base: nat, lists: FreeLists)
    requires |s| == |r| && Chains(s, base, lists)
    requires forall x :: base <= x < base + 4 * CLASSES ==> r[x] == s[x]
    requires forall i, k, x | 0 <= i < CLASSES && 0 <= k < |lists[i]| && lists[i][k] <= x < lists[i][k] + 4 ::
               r[x] == s[x]
    ensures Chains(r, base, lists)
  {
    forall i | 0 <= i < CLASSES ensures Chained(r, Head(base, i), lists[i]) {
      assert Chained(s, Head(base, i), lists[i]);
      ChainedFrame(s, r, Head(base, i), lists[i]);
    }
  }

  // ---- the doubly linked ring used while gluing ----

  /** Ring positions: the sentinel at 0 and after the last node. */
  function At(ring: seq<nat>, sentinel: nat, k: nat): nat
    requires k <= |ring| + 1
  {
    if k == 0 || k == |ring| + 1 then sentinel else ring[k - 1]
  }

  predicate Apart(x: nat, y: nat) {
    x + 12 <= y || y + 12 <= x
  }

  ghost predicate Nodes(s: seq<byte>, ring: seq<nat>, sentinel: nat) {
    && sentinel + 12 <= |s|
    && (forall k | 0 <= k < |ring| :: ring[k] + 12 <= sentinel)
    && (forall j, k | 0 <= j < k < |ring| :: Apart(ring[j], ring[k]))
  }

  ghost predicate Linked(s: seq<byte>, ring: seq<nat>, sentinel: nat, k: nat)
    requires Nodes(s, ring, sentinel) && k <= |ring|
  {
    && GetU32(s, At(ring, sentinel, k) + 4) == At(ring, sentinel, k + 1)
    && GetU32(s, At(ring, sentinel, k + 1) + 8) == At(ring, sentinel, k)
  }

  ghost predicate Ring(s: seq<byte>, ring: seq<nat>, sentinel: nat) {
    && Nodes(s, ring, sentinel)
    && forall k | 0 <= k <= |ring| :: Linked(s, ring, sentinel, k)
  }

  /** Below `limit` two heaps differ only in bytes `from` to `to` of the given nodes. */
  ghost predicate OnlyNodes(s: seq<byte>, r: seq<byte>, nodes: seq<nat>, from: nat, to: nat, limit: nat) {
    && |s| == |r|
    && forall x | 0 <= x < limit && x < |s| && r[x] != s[x] :: InNode(nodes, from, to, x)
  }

  ghost predicate InNode(nodes: seq<nat>, from: nat, to: nat, x: nat) {
    exists k :: 0 <= k < |nodes| && nodes[k] + from <= x < nodes[k] + to
  }

  predicate CanInsert(s: seq<byte>, b: nat, after: nat) {
    && b + 12 <= |s| && after + 12 <= |s| && b < 0x1_0000_0000 && after < 0x1_0000_0000
    && GetU32(s, after + 4) + 12 <= |s| && Apart(b, after)
  }

  /** The heap after `insert_at`: `b` becomes the successor of `after`. */
  function LinkedIn(s: seq<byte>, b: nat, after: nat): (r: seq<byte>)
    requires CanInsert(s, b, after)
    ensures |r| == |s|
  {
    var s1 := PutU32(s, b + 8, after);
    var s2 := PutU32(s1, b + 4, GetU32(s1, after + 4));
    var s3 := PutU32(s2, after + 4, b);
    SameWord(s, s1, after + 4);
    SameWord(s2, s3, b + 4);
    PutU32(s3, GetU32(s3, b + 4) + 8, b)
  }

  predicate CanUnlink(s: seq<byte>, b: nat) {
    b + 12 <= |s| && GetU32(s, b + 8) + 12 <= |s| && GetU32(s, b + 4) + 12 <= |s|
  }

  /** The heap after `MemBlock::remove`. */
  function LinkedOut(s: seq<byte>, b: nat): (r: seq<byte>)
    requires CanUnlink(s, b)
    ensures |r| == |s|
  {
    var previous, next := GetU32(s, b + 8), GetU32(s, b + 4);
    PutU32(PutU32(s, previous + 4, next), next + 8, previous)
  }

  lemma RingInsert(s: seq<byte>, ring: seq<nat>, sentinel: u32, b: u32)
    requires Ring(s, ring, sentinel) && b + 12 <= sentinel
    requires forall k | 0 <= k < |ring| :: Apart(b, ring[k])
    ensures CanInsert(s, b, sentinel)
    ensures Ring(LinkedIn(s, b, sentinel), [b] + ring, sentinel)
    ensures OnlyNodes(s, LinkedIn(s, b, sentinel), [b] + ring, 4, 12, sentinel)
  {
    hide GetU32, PutU32;
    assert Linked(s, ring, sentinel, 0);
    var next := At(ring, sentinel, 1);
    assert next == sentinel || next == ring[0];
    var s1 := PutU32(s, b + 8, sentinel);
    SameWord(s, s1, sentinel + 4);
    var s2 := PutU32(s1, b + 4, next);
    SameWord(s1, s2, b + 8);
    var s3 := PutU32(s2, sentinel + 4, b);
    SameWord(s2, s3, b + 4);
    SameWord(s2, s3, b + 8);
    var r := PutU32(s3, next + 8, b);
    assert r == LinkedIn(s, b, sentinel);
    SameWord(s3, r, b + 4);
    SameWord(s3, r, b + 8);
    SameWord(s3, r, sentinel + 4);
    var ring' := [b] + ring;
    assert ring'[0] == b && (ring != [] ==> ring'[1] == ring[0]);
    assert OnlyNodes(s, r, ring', 4, 12, sentinel);
    assert Nodes(r, ring', sentinel);
    forall k | 0 <= k <= |ring'| ensures Linked(r, ring', sentinel, k) {
      if k >= 2 {
        assert Linked(s, ring, sentinel, k - 1);
        var x, y := At(ring, sentinel, k - 1), At(ring, sentinel, k);
        SameWord(s, r, x + 4);
        SameWord(s, r, y + 8);
      }
    }
  }

  function Without(ring: seq<nat>, j: nat): seq<nat>
    requires j < |ring|
  {
    ring[..j] + ring[j + 1..]
  }

  lemma UnlinkedBytes(s: seq<byte>, ring: seq<nat>, sentinel: u32, j: nat)
    requires Ring(s, ring, sentinel) && j < |ring|
    ensures CanUnlink(s, ring[j]) && GetU32(s, ring[j] + 8) == At(ring, sentinel, j)
    ensures GetU32(s, ring[j] + 4) == At(ring, sentinel, j + 2)
    ensures OnlyNodes(s, LinkedOut(s, ring[j]), ring, 4, 12, sentinel)
    ensures var previous, next := At(ring, sentinel, j), At(ring, sentinel, j + 2);
            LinkedOut(s, ring[j]) == PutU32(PutU32(s, previous + 4, next), next + 8, previous)
  {
    hide GetU32, PutU32;
    assert Linked(s, ring, sentinel, j) && Linked(s, ring, sentinel, j + 1);
    assert j > 0 ==> ring[j - 1] == At(ring, sentinel, j);
    assert j + 1 < |ring| ==> ring[j + 1] == At(ring, sentinel, j + 2);
  }

  lemma RingRemove(s: seq<byte>, ring: seq<nat>, sentinel: u32, j: nat)
    requires Ring(s, ring, sentinel) && j < |ring|
    ensures CanUnlink(s, ring[j])
    ensures Ring(LinkedOut(s, ring[j]), Without(ring, j), sentinel)
    ensures OnlyNodes(s, LinkedOut(s, ring[j]), ring, 4, 12, sentinel)
  {
    hide GetU32, PutU32;
    UnlinkedBytes(s, ring, sentinel, j);
    hide OnlyNodes, LinkedOut;
    var previous, next := At(ring, sentinel, j), At(ring, sentinel, j + 2);
    var s1 := PutU32(s, previous + 4, next);
    var r := PutU32(s1, next + 8, previous);
    var ring' := Without(ring, j);
    assert Nodes(r, ring', sentinel);
    forall k | 0 <= k <= |ring'| ensures Linked(r, ring', sentinel, k) {
      if k == j {
        SameWord(s1, r, previous + 4);
      } else {
        var k' := if k < j then k else k + 1;
        assert Linked(s, ring, sentinel, k');
        SameWord(s, r, At(ring, sentinel, k') + 4);
        SameWord(s, r, At(ring, sentinel, k' + 1) + 8);
      }
    }
  }

  lemma RingFrame(s: seq<byte>, r: seq<byte>, ring: seq<nat>, sentinel: nat)
    requires |s| == |r| && Ring(s, ring, sentinel)
    requires forall x :: sentinel <= x < sentinel + 12 ==> r[x] == s[x]
    requires forall k, x | 0 <= k < |ring| && ring[k] + 4 <= x < ring[k] + 12 :: r[x] == s[x]
    ensures Ring(r, ring, sentinel)
  {
    forall k | 0 <= k <= |ring| ensures Linked(r, ring, sentinel, k) {
      assert Linked(s, ring, sentinel, k);
      SameWord(s, r, At(ring, sentinel, k) + 4);
      SameWord(s, r, At(ring, sentinel, k + 1) + 8);
    }
  }
}
