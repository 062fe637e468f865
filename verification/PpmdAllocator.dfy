/** The PPMd7 sub-allocator: a size-class allocator inside one byte heap. */
module PpmdAllocator {
  import opened Prelude
  import opened PpmdHeap
  import opened PpmdTiling
  import opened PpmdLists
  import opened PpmdBooks
  import opened PpmdGlue
  import opened PpmdRuns

  const MINIMUM_MEMORY: nat := 0x800

  class SubAllocator {
    const size: u32
    const heap: array<byte>
    const heapStart: u32
    const freeListPosition: u32
    const temporaryBlockPosition: u32
    const heapEnd: u32
    var glueCount: u32
    var unitsStart: u32
    var fakeUnitsStart: u32
    var lowUnit: u32
    var highUnit: u32
    var text: u32
    var indexToUnits: seq<nat>
    var unitsToIndex: seq<nat>
    // Which blocks exist, who owns them, and the contents of every free list.
    ghost var g: Books

    ghost function Bounds(): Area
      reads this
    {
      Area(unitsStart, lowUnit, highUnit, 1 + size)
    }

    /** Where the regions of the heap lie; the byte behind the unit area is never written. */
    ghost predicate Layout()
      reads this, heap
    {
      && MINIMUM_MEMORY <= size
      && heapStart == 1
      && freeListPosition == 1 + size / 12 * 12 + 12
      && temporaryBlockPosition == freeListPosition + 4 * CLASSES
      && heapEnd == freeListPosition - 12
      && heap.Length == temporaryBlockPosition + 12 < 0x1_0000_0000
      && heap[1 + size] == 0
    }

    ghost predicate Tables()
      reads this
    {
      && |indexToUnits| == CLASSES && (forall i | 0 <= i < CLASSES :: indexToUnits[i] == Units(i))
      && |unitsToIndex| == 128 && (forall u | 0 <= u < 128 :: unitsToIndex[u] == ClassFor(u + 1))
    }

    /** Text below the units, one start for both views of it, and the gap a whole number of units. */
    ghost predicate Ordered()
      reads this
    {
      && 1 <= text < unitsStart == fakeUnitsStart <= lowUnit <= highUnit < freeListPosition
      && (highUnit - lowUnit) % 12 == 0
    }

    ghost predicate Valid()
      reads this, heap
    {
      && Layout() && Tables() && Ordered() && glueCount <= 255
      && Consistent(heap[..], g, {}, Bounds(), freeListPosition)
    }

    constructor (size: u32, allocation: u32, position: u32)
      requires MINIMUM_MEMORY <= size
      requires allocation == size / 12 * 12 + 12
      requires position == 1 + allocation + 4 * CLASSES && position + 12 < 0x1_0000_0000
      ensures Layout() && this.size == size && fresh(heap) && forall x | 0 <= x < heap.Length :: heap[x] == 0
    {
      this.size := size;
      heap := new byte[position + 12](i => 0);
      heapStart := 1;
      heapEnd := 1 + allocation - 12;
      freeListPosition := 1 + allocation;
      temporaryBlockPosition := position;
      glueCount, unitsStart, fakeUnitsStart, lowUnit, highUnit, text := 0, 0, 0, 0, 0, 0;
      indexToUnits := seq(CLASSES, i => 0);
      unitsToIndex := seq(128, i => 0);
      g := Books(Tiling(map[], map[]), seq(CLASSES, i => []), {});
    }

    /** Fails exactly when the heap would not be addressable with 32 bits. */
    static method New(size: u32) returns (r: Result<SubAllocator>)
      requires MINIMUM_MEMORY <= size
      ensures r.Ok? <==> size / 12 * 12 + 12 + 1 + 4 * CLASSES + 12 < 0x1_0000_0000
      ensures r.Ok? ==> fresh(r.value) && fresh(r.value.heap) && r.value.Layout() && r.value.size == size
      ensures r.Ok? ==> forall x | 0 <= x < r.value.heap.Length :: r.value.heap[x] == 0
    {
      var allocation := size / 12 * 12 + 12;
      var position := 1 + allocation + 4 * CLASSES;
      if position + 12 >= 0x1_0000_0000 {
        return Err(Format);
      }
      var a := new SubAllocator(size, allocation, position);
      r := Ok(a);
    }

    // ---- one list cell at a time ----

    method InsertNode(address: u32, index: nat)
      requires index < CLASSES && freeListPosition + 4 * CLASSES <= heap.Length && address + 4 <= heap.Length
      modifies heap
      ensures heap[..] == Inserted(old(heap[..]), Head(freeListPosition, index), address)
    {
      var next := ReadU32(heap, freeListPosition + 4 * index);
      WriteU32(heap, address, next);
      WriteU32(heap, freeListPosition + 4 * index, address);
    }

    method RemoveNode(index: nat) returns (r: Result<u32>)
      requires index < CLASSES && freeListPosition + 4 * CLASSES <= heap.Length
      requires GetU32(heap[..], Head(freeListPosition, index)) + 4 <= heap.Length
      modifies heap
      ensures r.Err? <==> GetU32(old(heap[..]), Head(freeListPosition, index)) == 0
      ensures r.Err? ==> heap[..] == old(heap[..])
      ensures r.Ok? ==> r.value == GetU32(old(heap[..]), Head(freeListPosition, index))
                        && heap[..] == Removed(old(heap[..]), Head(freeListPosition, index))
    {
      var address := ReadU32(heap, freeListPosition + 4 * index);
      if address == 0 {
        return Err(Format);
      }
      var next := ReadU32(heap, address);
      WriteU32(heap, freeListPosition + 4 * index, next);
      r := Ok(address);
    }

    // ---- set-up ----

    method Initialize()
      requires Layout()
      modifies this, heap
      ensures Valid()
      ensures g.live == {} && g.t.blocks == map[] && NoneListed(g.lists)
      ensures text == 1 && unitsStart == lowUnit && glueCount == 0
      ensures highUnit == 1 + size && highUnit - lowUnit == 12 * (size / 8 / 12 * 7)
      ensures forall x | 0 <= x < freeListPosition :: heap[x] == old(heap[x])
    {
      LayoutBounds(size);
      Clear(heap, freeListPosition, 4 * CLASSES);
      SetRegions();
      FillTables();
      glueCount := 0;
      g := Books(Tiling(map[], map[]), seq(CLASSES, i => []), {});
      assert heap[1 + size] == old(heap[1 + size]);
      hide Consistent;
      FreshConsistent(heap[..], Bounds(), freeListPosition);
    }

    /** Seven eighths of the memory, in whole units, is for units; text starts at the bottom of the rest. */
    method SetRegions()
      requires MINIMUM_MEMORY <= size && heapStart == 1 && 1 + size < 0x1_0000_0000
      modifies `text, `lowUnit, `unitsStart, `fakeUnitsStart, `highUnit
      ensures text == 1 && unitsStart == fakeUnitsStart == lowUnit
      ensures highUnit == 1 + size && highUnit - lowUnit == 12 * (size / 8 / 12 * 7)
    {
      LayoutBounds(size);
      text := heapStart;
      var secondaryUnits := size / 8 / 12 * 7;
      var sizeTwo := 12 * secondaryUnits;
      var realSizeTwo := sizeTwo / 12 * 12;
      var sizeOne := size - sizeTwo;
      var realSizeOne := sizeOne / 12 * 12 + sizeOne % 12;
      lowUnit := heapStart + realSizeOne;
      unitsStart := lowUnit;
      fakeUnitsStart := heapStart + sizeOne;
      highUnit := lowUnit + realSizeTwo;
    }

    /** Class sizes grow by 1, 2, 3 and then 4; each count of units gets the first class it fits in. */
    method FillTables()
      modifies `indexToUnits, `unitsToIndex
      ensures Tables()
    {
      indexToUnits := seq(CLASSES, i => 0);
      var units, index := 1, 0;
      while index < 4
        invariant 0 <= index <= 4 && units == index + 1
        invariant |indexToUnits| == CLASSES && forall i | 0 <= i < index :: indexToUnits[i] == Units(i)
      {
        indexToUnits := indexToUnits[index := units];
        units, index := units + 1, index + 1;
      }
      units := units + 1;
      while index < 8
        invariant 4 <= index <= 8 && units == 2 * index - 2
        invariant |indexToUnits| == CLASSES && forall i | 0 <= i < index :: indexToUnits[i] == Units(i)
      {
        indexToUnits := indexToUnits[index := units];
        units, index := units + 2, index + 1;
      }
      units := units + 1;
      while index < 12
        invariant 8 <= index <= 12 && units == 3 * index - 9
        invariant |indexToUnits| == CLASSES && forall i | 0 <= i < index :: indexToUnits[i] == Units(i)
      {
        indexToUnits := indexToUnits[index := units];
        units, index := units + 3, index + 1;
      }
      units := units + 1;
      while index < CLASSES
        invariant 12 <= index <= CLASSES && units == 4 * index - 20
        invariant |indexToUnits| == CLASSES && forall i | 0 <= i < index :: indexToUnits[i] == Units(i)
      {
        indexToUnits := indexToUnits[index := units];
        units, index := units + 4, index + 1;
      }
      FillUnitClasses();
    }

    method FillUnitClasses()
      requires |indexToUnits| == CLASSES && forall i | 0 <= i < CLASSES :: indexToUnits[i] == Units(i)
      modifies `unitsToIndex
      ensures Tables()
    {
      unitsToIndex := seq(128, i => 0);
      var class_ := 0;
      for requested := 1 to 129
        invariant |unitsToIndex| == 128 && forall u | 0 <= u < requested - 1 :: unitsToIndex[u] == ClassFor(u + 1)
        invariant 0 <= class_ < CLASSES && class_ <= ClassFor(Min(requested, 128))
      {
        ghost var table := unitsToIndex;
        while indexToUnits[class_] < requested
          invariant 0 <= class_ <= ClassFor(requested) && unitsToIndex == table
          decreases CLASSES - class_
        {
          FirstFit(class_, requested);
          class_ := class_ + 1;
        }
        FirstFit(class_, requested);
        unitsToIndex := unitsToIndex[requested - 1 := class_];
        ClassesGrow(requested);
      }
    }

    // ---- operations on blocks ----

    /** The tail of a held block goes back to the lists, in one or two pieces of exactly their class. */
    method SplitBlock(address: u32, oldIndex: nat, newIndex: nat)
      requires Layout() && Tables() && Consistent(heap[..], g, {}, Bounds(), freeListPosition)
      requires newIndex < oldIndex < CLASSES
      requires address in g.live && address in g.t.blocks && g.t.blocks[address] == Units(oldIndex)
      modifies heap, `g
      ensures Layout() && Consistent(heap[..], g, {}, Bounds(), freeListPosition)
      ensures g.live == old(g.live) && SameBlocks(g.live - {address}, old(g.t), g.t)
      ensures address in g.t.blocks && g.t.blocks[address] == Units(newIndex)
      ensures g == Trimmed(old(g), address, Units(oldIndex), Units(newIndex))
      ensures forall x :: FreeByte(g, x) <==>
                FreeByte(old(g), x) || Between(address + UNIT * Units(newIndex), x, address + UNIT * Units(oldIndex))
      ensures SameOutside(old(heap[..]), heap[..], g, freeListPosition)
    {
      hide Consistent, Inserted, Split, Dealt;
      UnitsIncrease(newIndex, oldIndex);
      ClassOfUnits(newIndex);
      var difference := indexToUnits[oldIndex] - indexToUnits[newIndex];
      var remainder := address + 12 * indexToUnits[newIndex];
      BlockBounds(heap[..], g, {}, Bounds(), freeListPosition, address);
      CarveStep(heap[..], g, Bounds(), freeListPosition, address, Units(newIndex));
      g := g.(t := Split(g.t, address, Units(newIndex)));
      ListTail(remainder, difference);
    }

    /** The pieces of the tail, each in the list of exactly its size. */
    method ListTail(remainder: u32, difference: nat)
      requires Layout() && Tables() && Consistent(heap[..], g, {remainder}, Bounds(), freeListPosition)
      requires remainder in g.t.blocks && 1 <= g.t.blocks[remainder] == difference < 128
      modifies heap, `g
      ensures Layout() && Consistent(heap[..], g, {}, Bounds(), freeListPosition)
      ensures g.live == old(g.live) && Conserved(old(g), g) && g == Dealt(old(g), remainder, difference)
      ensures SameOutside(old(heap[..]), heap[..], g, freeListPosition)
    {
      hide Consistent, Inserted, Split, Dealt, Conserved, SameOutside;
      DealtShort(g, remainder, difference);
      var index := unitsToIndex[difference - 1];
      if indexToUnits[index] != difference {
        index := index - 1;
        CutDetached(remainder, index);
        var units := indexToUnits[index];
        BlockBounds(heap[..], g, {remainder + UNIT * units}, Bounds(), freeListPosition, remainder + UNIT * units);
        label L:
        ListDetached(remainder + 12 * units, unitsToIndex[difference - units - 1]);
        AttachConserves(old(heap[..]), old@L(heap[..]), heap[..], old(g), old@L(g), g, freeListPosition);
      } else {
        ConservedSelf(g, heap[..], freeListPosition);
        ListDetached(remainder, unitsToIndex[difference - 1]);
        AttachConserves(old(heap[..]), old(heap[..]), heap[..], old(g), old(g), g, freeListPosition);
      }
    }

    /** `insert_node` for the one detached block. */
    method ListDetached(address: u32, index: nat)
      requires Layout() && index < CLASSES && Consistent(heap[..], g, {address}, Bounds(), freeListPosition)
      requires address in g.t.blocks && g.t.blocks[address] == Units(index)
      modifies heap, `g
      ensures Layout() && Consistent(heap[..], g, {}, Bounds(), freeListPosition)
      ensures g == Attach(old(g), index, address)
      ensures SameOutside(old(heap[..]), heap[..], g, freeListPosition)
    {
      hide Consistent;
      BlockBounds(heap[..], g, {address}, Bounds(), freeListPosition, address);
      InsertStep(heap[..], g, {address}, Bounds(), freeListPosition, index, address);
      InsertNode(address, index);
      assert {address} - {address} == {};
      g := Attach(g, index, address);
    }

    /** The first part of the detached block goes to list `index`; the rest stays detached. */
    method CutDetached(address: u32, index: nat)
      requires Layout() && index < CLASSES && CanSplit(g.t, address, Units(index))
      requires Consistent(heap[..], g, {address}, Bounds(), freeListPosition)
      modifies heap, `g
      ensures Layout() && Consistent(heap[..], g, {address + UNIT * Units(index)}, Bounds(), freeListPosition)
      ensures g.live == old(g.live) && Conserved(old(g), g)
      ensures g == Attach(old(g).(t := Split(old(g.t), address, Units(index))), index, address)
      ensures address + UNIT * Units(index) in g.t.blocks
      ensures g.t.blocks[address + UNIT * Units(index)] == old(g.t.blocks[address]) - Units(index)
      ensures SameOutside(old(heap[..]), heap[..], g, freeListPosition)
    {
      hide Consistent;
      ghost var rest := address + UNIT * Units(index);
      BlockBounds(heap[..], g, {address}, Bounds(), freeListPosition, address);
      SplitStep(heap[..], g, {address}, Bounds(), freeListPosition, address, Units(index));
      g := g.(t := Split(g.t, address, Units(index)));
      InsertStep(heap[..], g, {address} + {rest}, Bounds(), freeListPosition, index, address);
      InsertNode(address, index);
      assert {address} + {rest} - {address} == {rest};
      g := Attach(g, index, address);
    }

    // ---- gluing ----

    method InsertAt(block: u32, after: u32)
      requires heap.Length < 0x1_0000_0000
      requires CanInsert(heap[..], block, after)
      modifies heap
      ensures heap[..] == LinkedIn(old(heap[..]), block, after)
    {
      hide GetU32, PutU32;
      WriteU32(heap, block + 8, after);
      SameWord(old(heap[..]), heap[..], after + 4);
      var following := ReadU32(heap, after + 4);
      WriteU32(heap, block + 4, following);
      label L:
      WriteU32(heap, after + 4, block);
      SameWord(old@L(heap[..]), heap[..], block + 4);
      var next := ReadU32(heap, block + 4);
      WriteU32(heap, next + 8, block);
    }

    method RemoveBlock(block: u32)
      requires heap.Length < 0x1_0000_0000 && CanUnlink(heap[..], block)
      modifies heap
      ensures heap[..] == LinkedOut(old(heap[..]), block)
    {
      hide GetU32, PutU32;
      var previous := ReadU32(heap, block + 8);
      var next := ReadU32(heap, block + 4);
      WriteU32(heap, previous + 4, next);
      WriteU32(heap, next + 8, previous);
    }

    ghost predicate InGlue(ring: seq<nat>, extra: set<nat>)
      reads this, heap
    {
      Layout() && Tables() && Gluing(heap[..], g, ring, extra, Bounds(), freeListPosition)
    }

    /** The first block of list `index` moves to the front of the ring, stamped and measured. */
    method GatherOne(index: nat, ghost ring: seq<nat>)
      requires index < CLASSES && InGlue(ring, {}) && g.lists[index] != []
      modifies heap, `g
      ensures InGlue([old(g.lists[index][0])] + ring, {})
      ensures g == Detach(old(g), index)
      ensures SameOutside(old(heap[..]), heap[..], g, freeListPosition)
    {
      hide Consistent, Ring, Stamped, Distinct, GetU32, PutU32, Removed, Elements;
      GatherFirst(heap[..], g, ring, Bounds(), freeListPosition, index, g.lists[index][0]);
      var block := RemoveNode(index);
      g := Detach(g, index);
      assert heap[1 + size] == heap[..][1 + size];
      GatherBlock(block.value, index, ring);
    }

    method GatherBlock(block: u32, index: nat, ghost ring: seq<nat>)
      requires index < CLASSES && InGlue(ring, {block}) && block !in ring
      requires block in g.t.blocks && g.t.blocks[block] == Units(index)
      modifies heap
      ensures InGlue([block] + ring, {})
      ensures SameOutside(old(heap[..]), heap[..], g, freeListPosition)
    {
      hide Consistent, Ring, Stamped, Distinct, GetU32, PutU32, GetU16, PutU16, LinkedIn, Detach;
      GatherApart(heap[..], g, ring, Bounds(), freeListPosition, block);
      GatherRoom(heap[..], g, ring, Bounds(), freeListPosition, block);
      GatherLink(heap[..], g, ring, Bounds(), freeListPosition, block);
      GatherDistinct(ring, block);
      EndKept(heap[..], LinkedIn(heap[..], block, temporaryBlockPosition), g, Elements(ring) + {block}, Bounds(),
              freeListPosition);
      InsertAt(block, temporaryBlockPosition);
      GatherMark(heap[..], g, ring, Bounds(), freeListPosition, block);
      EndKept(heap[..], Marked(heap[..], block, Units(index)), g, Elements([block] + ring), Bounds(),
              freeListPosition);
      WriteU16(heap, block, 0xffff);
      WriteU16(heap, block + 2, indexToUnits[index]);
    }

    /** Every free list is emptied into the ring. */
    method GatherFree() returns (ghost ring: seq<nat>)
      requires InGlue([], {})
      modifies heap, `g
      ensures InGlue(ring, {}) && NoneListed(g.lists) && Conserved(old(g), g) && g.t == old(g.t)
      ensures ring == Gathered([], old(g.lists), 0)
      ensures SameOutside(old(heap[..]), heap[..], old(g), freeListPosition)
    {
      hide Gluing, Gathered;
      ring := [];
      for index := 0 to CLASSES
        invariant InGlue(ring, {}) && g.t == old(g.t) && g.live == old(g.live)
        invariant forall i | 0 <= i < index :: g.lists[i] == []
        invariant Gathered(ring, g.lists, index) == Gathered([], old(g.lists), 0)
        invariant SameOutside(old(heap[..]), heap[..], g, freeListPosition)
      {
        GlueHead(heap[..], g, ring, Bounds(), freeListPosition, index);
        var head := ReadU32(heap, freeListPosition + 4 * index);
        while head != 0
          invariant InGlue(ring, {}) && g.t == old(g.t) && g.live == old(g.live)
          invariant head == 0 <==> g.lists[index] == []
          invariant forall i | 0 <= i < index :: g.lists[i] == []
          invariant Gathered(ring, g.lists, index) == Gathered([], old(g.lists), 0)
          invariant SameOutside(old(heap[..]), heap[..], g, freeListPosition)
          decreases |g.lists[index]|
        {
          ghost var b := g.lists[index][0];
          GatheredOne(ring, g.lists, index);
          GatherOne(index, ring);
          ring := [b] + ring;
          GlueHead(heap[..], g, ring, Bounds(), freeListPosition, index);
          head := ReadU32(heap, freeListPosition + 4 * index);
        }
        GatheredNone(ring, g.lists, index);
      }
      GatheredDone(ring, g.lists);
    }

    /** The ring block right behind `block` is unlinked and its units are added to `block`. */
    method MergeOne(block: u32, next: u32, ghost ring: seq<nat>, ghost j: nat)
      requires InGlue(ring, {}) && j < |ring| && ring[j] == next && block in ring
      requires block in g.t.blocks && next == block + UNIT * g.t.blocks[block]
      requires next in g.t.blocks && g.t.blocks[block] + g.t.blocks[next] < 0x1_0000
      modifies heap, `g
      ensures CanJoin(old(g.t), block) && g == old(g).(t := Join(old(g.t), block))
      ensures InGlue(Without(ring, j), {}) && Conserved(old(g), g)
      ensures SameOutside(old(heap[..]), heap[..], old(g), freeListPosition)
    {
      hide Gluing, GetU32, GetU16, PutU16, LinkedOut, Join, Without, Conserved;
      MergeFirst(heap[..], g, ring, Bounds(), freeListPosition, block, next, j);
      RemoveBlock(next);
      var units := ReadU16(heap, block + 2);
      var nextUnits := ReadU16(heap, next + 2);
      MergeSecond(heap[..], g, Without(ring, j), Bounds(), freeListPosition, block, next, units + nextUnits);
      WriteU16(heap, block + 2, units + nextUnits);
      g := g.(t := Join(g.t, block));
    }

    ghost predicate Scannable(ring: seq<nat>)
      reads this, heap
    {
      Layout() && Tables() && Scanning(heap[..], g, ring, Bounds(), freeListPosition)
    }

    /** `block` swallows the free blocks behind it while its length stays a 16-bit number. */
    method Absorb(block: u32, ghost ring: seq<nat>, ghost k: nat) returns (ghost ring': seq<nat>, ghost k': nat)
      requires Scannable(ring) && k < |ring| && ring[k] == block && FirstSettled(g.t.blocks, ring, k)
      modifies heap, `g
      ensures Scannable(ring') && k' < |ring'| && ring'[k'] == block && FirstSettled(g.t.blocks, ring', k' + 1)
      ensures g.lists == old(g.lists) && Merged(g.t, ring', k' + 1) == Merged(old(g.t), ring, k)
      ensures |ring'| - k' <= |ring| - k
      ensures Conserved(old(g), g) && SameOutside(old(heap[..]), heap[..], old(g), freeListPosition)
    {
      hide Scanning, Conserved, SameOutside, GetU16, CanJoin, Without, Join, FirstSettled, Swallows, Merged;
      ring', k' := ring, k;
      LookBehind(heap[..], g, ring', Bounds(), freeListPosition, k');
      var units := ReadU16(heap, block + 2);
      var next := block + 12 * units;
      var stamp := ReadU16(heap, next);
      var nextUnits := ReadU16(heap, next + 2);
      ConservedSelf(g, heap[..], freeListPosition);
      while stamp == 0xffff && units + nextUnits < 0x1_0000
        invariant Scannable(ring') && k' < |ring'| && ring'[k'] == block && FirstSettled(g.t.blocks, ring', k')
        invariant |ring'| - k' <= |ring| - k
        invariant block in g.t.blocks && units == g.t.blocks[block] >= 1
        invariant next == block + UNIT * units && next + 4 <= heap.Length
        invariant stamp == STAMP ==> next in ring' && next in g.t.blocks && nextUnits == g.t.blocks[next]
        invariant next in ring' ==> stamp == STAMP
        invariant g.lists == old(g.lists) && Merged(g.t, ring', k') == Merged(old(g.t), ring, k)
        invariant Conserved(old(g), g) && SameOutside(old(heap[..]), heap[..], old(g), freeListPosition)
        decreases |ring'|
      {
        ghost var j := Position(ring', next);
        MergedOne(g.t, ring', k');
        ScannedDistinct(heap[..], g, ring', Bounds(), freeListPosition);
        JoinKeepsSettled(g.t, ring', k', j);
        label L:
        MergeStep(block, next, ring', j);
        CursorAfter(ring', k', j);
        OutsideTrans(old(heap[..]), old@L(heap[..]), heap[..], old(g), old@L(g), freeListPosition);
        ConservedTrans(old(g), old@L(g), g);
        ring', k' := Without(ring', j), if j < k' then k' - 1 else k';
        LookBehind(heap[..], g, ring', Bounds(), freeListPosition, k');
        units := ReadU16(heap, block + 2);
        next := block + 12 * units;
        stamp := ReadU16(heap, next);
        nextUnits := ReadU16(heap, next + 2);
      }
      MergedNext(g.t, ring', k');
      NowSettled(g.t.blocks, ring', k');
    }

    method MergeStep(block: u32, next: u32, ghost ring: seq<nat>, ghost j: nat)
      requires Scannable(ring) && j < |ring| && ring[j] == next && block in ring
      requires block in g.t.blocks && next == block + UNIT * g.t.blocks[block]
      requires next in g.t.blocks && g.t.blocks[block] + g.t.blocks[next] < 0x1_0000
      modifies heap, `g
      ensures Scannable(Without(ring, j)) && Conserved(old(g), g)
      ensures CanJoin(old(g.t), block) && g == old(g).(t := Join(old(g.t), block))
      ensures block in g.t.blocks && SameOutside(old(heap[..]), heap[..], old(g), freeListPosition)
    {
      hide Gluing, Conserved, SameOutside, GetU16, Guarded, Unstamped, NoneListed;
      MergeOne(block, next, ring, j);
      ScanKept(old(heap[..]), heap[..], old(g), g, ring, Without(ring, j), Bounds(), freeListPosition);
    }

    /** Every run of neighbouring free blocks is visited once; the step limit is never reached. */
    method MergeFree(ghost gathered: seq<nat>) returns (ghost ring: seq<nat>)
      requires Scannable(gathered)
      modifies heap, `g
      ensures Scannable(ring) && Conserved(old(g), g) && FirstSettled(g.t.blocks, ring, |ring|)
      ensures Scan(g.t, ring) == Merged(old(g.t), gathered, 0) && g.lists == old(g.lists)
      ensures SameOutside(old(heap[..]), heap[..], old(g), freeListPosition)
    {
      hide Gluing, Conserved, SameOutside, NoneListed, Unstamped, Guarded, GetU32;
      ring := gathered;
      ghost var k: nat := 0;
      RingBound(heap[..], g, ring, {}, Bounds(), freeListPosition);
      ConservedSelf(g, heap[..], freeListPosition);
      SentinelNext(heap[..], g, ring, {}, Bounds(), freeListPosition, 0);
      var maximumSteps := heap.Length / 12 + 1;
      var block := ReadU32(heap, temporaryBlockPosition + 4);
      var steps := 0;
      while block != temporaryBlockPosition
        invariant Scannable(ring) && k <= |ring| && FirstSettled(g.t.blocks, ring, k)
        invariant block == At(ring, temporaryBlockPosition, k + 1)
        invariant block == temporaryBlockPosition <==> k == |ring|
        invariant steps + (|ring| - k) <= maximumSteps
        invariant g.lists == old(g.lists) && Merged(g.t, ring, k) == Merged(old(g.t), gathered, 0)
        invariant Conserved(old(g), g) && SameOutside(old(heap[..]), heap[..], old(g), freeListPosition)
        decreases |ring| - k
      {
        steps := steps + 1;
        assert steps <= maximumSteps;
        label L:
        ring, k := Absorb(block, ring, k);
        OutsideTrans(old(heap[..]), old@L(heap[..]), heap[..], old(g), old@L(g), freeListPosition);
        ConservedTrans(old(g), old@L(g), g);
        k := k + 1;
        SentinelNext(heap[..], g, ring, {}, Bounds(), freeListPosition, k);
        block := ReadU32(heap, block + 4);
      }
    }

    /** One part of exactly class `index` is listed. */
    method DealPart(address: u32, index: nat, ghost ring: seq<nat>, ghost extra: set<nat>)
      requires InGlue(ring, extra) && address in extra
      requires index < CLASSES && address in g.t.blocks && g.t.blocks[address] == Units(index)
      modifies heap, `g
      ensures InGlue(ring, extra - {address}) && g == Attach(old(g), index, address)
      ensures SameOutside(old(heap[..]), heap[..], old(g), freeListPosition)
    {
      hide Gluing, GetU32, Inserted, SameOutside;
      DealNext(heap[..], g, ring, extra, Bounds(), freeListPosition, index, address);
      InsertNode(address, index);
      g := Attach(g, index, address);
    }

    /** A merged block is cut into pieces of 128 units, then into one or two of exactly their class. */
    method DealBlock(first: u32, total: nat, ghost ring: seq<nat>)
      requires InGlue(ring, {first}) && first in g.t.blocks && g.t.blocks[first] == total >= 1
      modifies heap, `g
      ensures InGlue(ring, {}) && Conserved(old(g), g) && g == Dealt(old(g), first, total)
      ensures SameOutside(old(heap[..]), heap[..], old(g), freeListPosition)
    {
      hide Gluing, Conserved, SameOutside, Split, CanSplit;
      var block, units := first, total;
      ConservedSelf(g, heap[..], freeListPosition);
      while units > 128
        invariant InGlue(ring, {block}) && block in g.t.blocks && g.t.blocks[block] == units >= 1
        invariant Dealt(g, block, units) == Dealt(old(g), first, total)
        invariant Conserved(old(g), g) && SameOutside(old(heap[..]), heap[..], old(g), freeListPosition)
        decreases units
      {
        label L:
        DealCut(block, ring);
        OutsideTrans(old(heap[..]), old@L(heap[..]), heap[..], old(g), old@L(g), freeListPosition);
        ConservedTrans(old(g), old@L(g), g);
        block := block + 12 * 128;
        units := units - 128;
      }
      var index := unitsToIndex[units - 1];
      label M:
      if indexToUnits[index] != units {
        index := index - 1;
        var remainderUnits := units - indexToUnits[index];
        DealTail(block, index, remainderUnits, ring);
      } else {
        ConservedSelf(g, heap[..], freeListPosition);
      }
      label N:
      DealPart(block, index, ring, {block});
      DealtAll(old(heap[..]), old@M(heap[..]), old@N(heap[..]), heap[..], old(g), old@M(g), old@N(g), g,
               freeListPosition);
      assert {block} - {block} == {};
    }

    /** The first 128 units are listed; the rest stays in hand. */
    method DealCut(block: u32, ghost ring: seq<nat>)
      requires InGlue(ring, {block}) && block in g.t.blocks && g.t.blocks[block] > 128
      modifies heap, `g
      ensures CanSplit(old(g.t), block, 128)
      ensures g == Attach(old(g).(t := Split(old(g.t), block, 128)), CLASSES - 1, block)
      ensures InGlue(ring, {block + UNIT * 128}) && block + UNIT * 128 in g.t.blocks
      ensures g.t.blocks[block + UNIT * 128] == old(g.t.blocks[block]) - 128
      ensures block + UNIT * 128 < 0x1_0000_0000
      ensures Conserved(old(g), g) && SameOutside(old(heap[..]), heap[..], old(g), freeListPosition)
    {
      hide Gluing, Conserved, SameOutside, Split;
      ghost var rest := block + UNIT * 128;
      DealSplit(heap[..], g, ring, Bounds(), freeListPosition, block, 128);
      g := g.(t := Split(g.t, block, 128));
      label L:
      DealPart(block, CLASSES - 1, ring, {block, rest});
      assert {block, rest} - {block} == {rest};
      OneCut(old(heap[..]), heap[..], old(g), old@L(g), g, freeListPosition);
      NodeFacts(heap[..], g, ring, {rest}, Bounds(), freeListPosition, rest);
    }

    /** What exceeds class `index` is at most three units, so its class is its length less one. */
    method DealTail(block: u32, index: nat, remainderUnits: nat, ghost ring: seq<nat>)
      requires InGlue(ring, {block}) && block in g.t.blocks && index < CLASSES
      requires 1 <= remainderUnits <= 3 && g.t.blocks[block] == Units(index) + remainderUnits
      modifies heap, `g
      ensures CanSplit(old(g.t), block, Units(index))
      ensures g == Attach(old(g).(t := Split(old(g.t), block, Units(index))), remainderUnits - 1,
                          block + UNIT * Units(index))
      ensures InGlue(ring, {block}) && block in g.t.blocks && g.t.blocks[block] == Units(index)
      ensures Conserved(old(g), g) && SameOutside(old(heap[..]), heap[..], old(g), freeListPosition)
    {
      hide Gluing, Conserved, SameOutside, Split;
      NodeFacts(heap[..], g, ring, {block}, Bounds(), freeListPosition, block);
      var units := indexToUnits[index] + remainderUnits;
      var rest := block + 12 * (units - remainderUnits);
      DealSplit(heap[..], g, ring, Bounds(), freeListPosition, block, Units(index));
      g := g.(t := Split(g.t, block, Units(index)));
      label L:
      DealPart(rest, remainderUnits - 1, ring, {block, rest});
      assert {block, rest} - {rest} == {block};
      OneCut(old(heap[..]), heap[..], old(g), old@L(g), g, freeListPosition);
    }

    /** Every ring block is taken out, cut up and listed. */
    method DealFree(ghost merged: seq<nat>)
      requires InGlue(merged, {})
      modifies heap, `g
      ensures InGlue([], {}) && Conserved(old(g), g) && g == DealtRing(old(g), merged)
      ensures SameOutside(old(heap[..]), heap[..], old(g), freeListPosition)
    {
      hide Gluing, Conserved, SameOutside, GetU32, GetU16, LinkedOut, Dealt;
      ghost var ring := merged;
      RingBound(heap[..], g, ring, {}, Bounds(), freeListPosition);
      ConservedSelf(g, heap[..], freeListPosition);
      SentinelNext(heap[..], g, ring, {}, Bounds(), freeListPosition, 0);
      var maximumSteps := heap.Length / 12 + 1;
      var block := ReadU32(heap, temporaryBlockPosition + 4);
      var steps := 0;
      while block != temporaryBlockPosition
        invariant InGlue(ring, {}) && DealtRing(g, ring) == DealtRing(old(g), merged)
        invariant block == At(ring, temporaryBlockPosition, 1)
        invariant block == temporaryBlockPosition <==> ring == []
        invariant steps + |ring| <= maximumSteps
        invariant Conserved(old(g), g) && SameOutside(old(heap[..]), heap[..], old(g), freeListPosition)
        decreases |ring|
      {
        steps := steps + 1;
        assert steps <= maximumSteps;
        label L:
        DealFirst(heap[..], g, ring, Bounds(), freeListPosition, block);
        RemoveBlock(block);
        assert heap[1 + size] == heap[..][1 + size];
        ring := ring[1..];
        var units := ReadU16(heap, block + 2);
        label M:
        ConservedSelf(g, heap[..], freeListPosition);
        DealBlock(block, units, ring);
        DealtAll(old(heap[..]), old@L(heap[..]), old@M(heap[..]), heap[..], old(g), old@L(g), old@L(g), g,
                 freeListPosition);
        SentinelNext(heap[..], g, ring, {}, Bounds(), freeListPosition, 0);
        block := ReadU32(heap, temporaryBlockPosition + 4);
      }
    }

    /** The guard byte in the gap, and an empty ring. */
    method PrepareGlue()
      requires Layout() && Tables() && Consistent(heap[..], g, {}, Bounds(), freeListPosition)
      requires Unstamped(heap[..], g.live) && Ordered()
      modifies heap
      ensures Layout() && Gluing(heap[..], g, [], {}, Bounds(), freeListPosition)
      ensures Consistent(heap[..], g, {}, Bounds(), freeListPosition)
      ensures Unstamped(heap[..], g.live) && Guarded(heap[..], Bounds())
      ensures KeptSame(old(heap[..]), heap[..], g, Bounds(), freeListPosition)
    {
      hide Consistent, Gluing, Unstamped, KeptSame, GetU32, PutU32;
      if lowUnit != highUnit {
        heap[lowUnit] := 0;
      }
      WriteU32(heap, temporaryBlockPosition + 8, temporaryBlockPosition);
      label L:
      WriteU32(heap, temporaryBlockPosition + 4, temporaryBlockPosition);
      SameWord(old@L(heap[..]), heap[..], temporaryBlockPosition + 8);
      Prepared(old(heap[..]), heap[..], g, Bounds(), freeListPosition);
      EmptyRing(heap[..], g, Bounds(), freeListPosition);
    }

    /** Neighbouring free blocks are merged and listed again by size; nothing is lost and nothing held is touched. */
    method GlueFreeBlocks()
      requires Layout() && Tables() && Ordered() && Consistent(heap[..], g, {}, Bounds(), freeListPosition)
      requires Unstamped(heap[..], g.live)
      modifies heap, `g
      ensures Layout() && Consistent(heap[..], g, {}, Bounds(), freeListPosition)
      ensures Conserved(old(g), g) && Glued(old(g), g) && g == GluedBooks(old(g))
      ensures KeptSame(old(heap[..]), heap[..], old(g), Bounds(), freeListPosition)
    {
      hide Consistent, Gluing, Unstamped, KeptSame, Conserved, SameOutside, Guarded, NoneListed, FirstSettled, Runs;
      hide DealtRing, Gathered, Merged;
      PrepareGlue();
      label A:
      ghost var ring := GatherFree();
      KeepLive(old(g), g);
      StillScanning(old@A(heap[..]), heap[..], old(g), g, ring, Bounds(), freeListPosition);
      label B:
      ring := MergeFree(ring);
      ConservedTrans(old(g), old@B(g), g);
      RunsAre(heap[..], old(g), g, ring, Bounds(), freeListPosition);
      label C:
      NothingListed(g.lists);
      DealFree(ring);
      RingGone(heap[..], g, Bounds(), freeListPosition);
      DealtAll(old@A(heap[..]), old@B(heap[..]), old@C(heap[..]), heap[..],
               old(g), old@B(g), old@C(g), g, freeListPosition);
      OutsideKept(old(heap[..]), old@A(heap[..]), heap[..], old(g), Bounds(), freeListPosition);
    }

    // ---- allocation ----

    /** Takes the head of a list that has one. */
    method TakeListed(index: nat) returns (address: u32)
      requires Valid() && index < CLASSES && g.lists[index] != []
      modifies heap, `g
      ensures Valid() && address != 0 && Granted(old(g), g, address, Units(index))
      ensures address == old(g.lists[index][0]) && g == TakenHead(old(g), index)
      ensures KeptSame(old(heap[..]), heap[..], old(g), Bounds(), freeListPosition)
    {
      hide Consistent, Granted, KeptSame, GetU32, Removed;
      TakeStep(heap[..], g, Bounds(), freeListPosition, index);
      EndOutside(heap[..], Removed(heap[..], Head(freeListPosition, index)), g, Bounds(), freeListPosition);
      var r := RemoveNode(index);
      assert heap[1 + size] == heap[..][1 + size];
      address := r.value;
      g := Detach(g, index).(live := g.live + {address});
    }

    /** No class from `index` on has a free block, and the text leaves no room below the units. */
    ghost predicate Exhausted(index: nat)
      requires index < CLASSES
      reads this
    {
      && (forall i | index <= i < CLASSES :: g.lists[i] == [])
      && unitsStart - text <= 12 * Units(index)
    }

    /** What every allocation leaves behind, whether or not it found a block. */
    twostate predicate Served(address: u32, index: nat)
      requires index < CLASSES
      reads this, heap
    {
      && Valid() && text == old(text)
      && KeptSame(old(heap[..]), heap[..], old(g), old(Bounds()), freeListPosition)
      && (address == 0 ==> g.live == old(g.live) && SameBlocks(g.live, old(g.t), g.t) && Exhausted(index))
      && (address != 0 ==> Granted(old(g), g, address, Units(index)))
    }

    /** The address returned and the state left behind are those of `o`. */
    ghost predicate Is(address: u32, o: Outcome)
      reads this
    {
      address == o.address && g == o.g && Bounds() == o.a && glueCount == o.count
    }

    /** The rare path found its block in the old lists, or in those of a new gluing, or below the units. */
    twostate predicate FoundRare(address: u32, index: nat)
      requires index < CLASSES
      reads this
    {
      Is(address, Rare(old(g), old(Bounds()), old(text), old(glueCount), index))
    }

    /** A block from the top of the gap, from list 0, or from wherever the rare path finds one. */
    method AllocateContext() returns (address: u32)
      requires Valid() && Unstamped(heap[..], g.live)
      modifies this, heap
      ensures Served(address, 0)
      ensures old(highUnit != lowUnit) ==> address == old(highUnit) - 12 && heap[..] == old(heap[..])
      ensures old(highUnit == lowUnit && g.lists[0] != []) ==> address == old(g.lists[0][0])
      ensures old(highUnit == lowUnit && g.lists[0] == []) ==> FoundRare(address, 0)
      ensures address == 0 ==> lowUnit == highUnit
      ensures Is(address, NewContext(old(g), old(Bounds()), old(text), old(glueCount)))
    {
      hide Consistent, Granted, KeptSame, GetU32, SameBlocks, Rare;
      if highUnit != lowUnit {
        TakeTop(heap[..], g, Bounds(), freeListPosition);
        KeptSelf(heap[..], g, Bounds(), freeListPosition);
        highUnit := highUnit - 12;
        g := Books(Grow(g.t, highUnit, 1), g.lists, g.live + {highUnit});
        return highUnit;
      }
      EmptyHead(heap[..], g, {}, Bounds(), freeListPosition, 0);
      var head := ReadU32(heap, freeListPosition);
      if head != 0 {
        address := TakeListed(0);
        return;
      }
      address := AllocateUnitsRare(0);
    }

    /** The gap's new lower bound would not be a 32-bit address; only heaps within 1.5 KiB of 4 GiB can see this. */
    ghost predicate GapOverflows(units: nat)
      reads this
    {
      && 1 <= units <= 128
      && g.lists[ClassFor(units)] == []
      && lowUnit + 12 * Units(ClassFor(units)) >= 0x1_0000_0000
    }

    /** Blocks are handed out in class sizes; the request itself must be for 1 to 128 units. */
    method AllocateUnits(units: u32) returns (r: Result<u32>)
      requires Valid() && Unstamped(heap[..], g.live)
      modifies this, heap
      ensures r.Err? <==> !(1 <= units <= 128) || old(GapOverflows(units))
      ensures r.Err? ==> Valid() && g == old(g) && heap[..] == old(heap[..]) && Bounds() == old(Bounds())
      ensures r.Ok? ==> Served(r.value, ClassFor(units))
      ensures r.Ok? && old(g.lists[ClassFor(units)]) != [] ==> r.value == old(g.lists[ClassFor(units)][0])
      ensures r.Ok? && old(g.lists[ClassFor(units)]) == []
              && old(lowUnit) + 12 * Units(ClassFor(units)) <= old(highUnit) ==>
                && r.value == old(lowUnit) && heap[..] == old(heap[..]) && g.lists == old(g.lists)
                && lowUnit == old(lowUnit) + 12 * Units(ClassFor(units)) && highUnit == old(highUnit)
      ensures r.Ok? && old(g.lists[ClassFor(units)]) == []
              && old(lowUnit) + 12 * Units(ClassFor(units)) > old(highUnit) ==>
                FoundRare(r.value, ClassFor(units))
      ensures r.Ok? && r.value == 0 ==> highUnit - lowUnit < 12 * Units(ClassFor(units))
      ensures r.Ok? ==>
                Is(r.value, Allocated(old(g), old(Bounds()), old(text), old(glueCount), ClassFor(units)))
    {
      hide Consistent, Granted, KeptSame, GetU32, SameBlocks, Rare;
      if !(1 <= units <= 128) {
        return Err(Format);
      }
      var index := unitsToIndex[units - 1];
      EmptyHead(heap[..], g, {}, Bounds(), freeListPosition, index);
      var head := ReadU32(heap, freeListPosition + 4 * index);
      if head != 0 {
        var taken := TakeListed(index);
        return Ok(taken);
      }
      var bytes := 12 * indexToUnits[index];
      if lowUnit + bytes >= 0x1_0000_0000 {
        return Err(Format);
      }
      var address := BumpLow(index);
      KeptSelf(old(heap[..]), old(g), old(Bounds()), freeListPosition);
      if address != 0 {
        return Ok(address);
      }
      address := AllocateUnitsRare(index);
      r := Ok(address);
    }

    /** Moves the lower bound of the gap up by one block, and back down if that leaves the gap. */
    method BumpLow(index: nat) returns (address: u32)
      requires Valid() && index < CLASSES && lowUnit + 12 * Units(index) < 0x1_0000_0000
      modifies `lowUnit, `g
      ensures Valid()
      ensures address == 0 <==> old(highUnit) < old(lowUnit) + 12 * Units(index)
      ensures address == 0 ==> g == old(g) && lowUnit == old(lowUnit)
      ensures address != 0 ==> address == old(lowUnit) && Granted(old(g), g, address, Units(index))
      ensures address != 0 ==> lowUnit == old(lowUnit) + 12 * Units(index) && g == Grown(old(g), address, Units(index))
    {
      hide Consistent, Granted;
      address := lowUnit;
      lowUnit := lowUnit + 12 * indexToUnits[index];
      if lowUnit <= highUnit {
        TakeBottom(heap[..], g, old(Bounds()), freeListPosition, index);
        g := Books(Grow(g.t, address, Units(index)), g.lists, g.live + {address});
        return;
      }
      lowUnit := lowUnit - 12 * indexToUnits[index];
      address := 0;
    }

    /** Glue if it is time, then split the smallest larger block, then grow down towards the text. */
    method AllocateUnitsRare(index: nat) returns (address: u32)
      requires Valid() && Unstamped(heap[..], g.live) && index < CLASSES && g.lists[index] == []
      modifies this, heap
      ensures Served(address, index)
      ensures lowUnit == old(lowUnit) && highUnit == old(highUnit)
      ensures FoundRare(address, index)
      ensures old(glueCount) == 0 ==> glueCount >= 254
    {
      hide Consistent, Granted, KeptSame, GetU32, SameBlocks, Conserved, Unstamped, Glued, GluedBooks, FromLarger;
      ConservedSelf(g, heap[..], freeListPosition);
      KeptSelf(heap[..], g, Bounds(), freeListPosition);
      if glueCount == 0 {
        glueCount := 255;
        GlueFreeBlocks();
        EmptyHead(heap[..], g, {}, Bounds(), freeListPosition, index);
        var head := ReadU32(heap, freeListPosition + 4 * index);
        if head != 0 {
          label A:
          address := TakeListed(index);
          AfterGlue(old(heap[..]), old@A(heap[..]), heap[..], old(g), old@A(g), g, address, Units(index), Bounds(),
                    freeListPosition);
          return;
        }
      }
      label B:
      address := AllocateLarger(index);
      if address == 0 {
        NoneAfterGlue(old(heap[..]), old@B(heap[..]), heap[..], old(g), g, old(Bounds()), freeListPosition);
      } else {
        AfterGlue(old(heap[..]), old@B(heap[..]), heap[..], old(g), old@B(g), g, address, Units(index), old(Bounds()),
                  freeListPosition);
      }
    }

    /** The loop over the larger classes, and what follows when none of them has a block. */
    method AllocateLarger(index: nat) returns (address: u32)
      requires Valid() && index < CLASSES && g.lists[index] == [] && glueCount >= 1
      modifies this, heap
      ensures Valid() && text == old(text) && KeptSame(old(heap[..]), heap[..], old(g), old(Bounds()), freeListPosition)
      ensures Is(address, FromLarger(old(g), old(Bounds()), old(text), old(glueCount), index))
      ensures glueCount >= old(glueCount) - 1
      ensures lowUnit == old(lowUnit) && highUnit == old(highUnit)
      ensures address == 0 ==> g == old(g) && Exhausted(index)
      ensures address != 0 ==> Granted(old(g), g, address, Units(index))
    {
      hide Consistent, Granted, KeptSame, GetU32, SameBlocks, TakenFront;
      KeptSelf(heap[..], g, Bounds(), freeListPosition);
      var larger := FindLarger(index);
      if larger == CLASSES {
        address := GrowDown(index);
      } else {
        address := TakeFront(larger, index);
      }
    }

    /** The first class above `index` with a free block. */
    method FindLarger(index: nat) returns (larger: nat)
      requires Valid() && index < CLASSES
      ensures index < larger <= CLASSES && forall i | index < i < larger :: g.lists[i] == []
      ensures larger < CLASSES ==> g.lists[larger] != []
    {
      hide Consistent, GetU32;
      larger := index;
      while true
        invariant index <= larger < CLASSES && forall i | index < i <= larger :: g.lists[i] == []
        decreases CLASSES - larger
      {
        larger := larger + 1;
        if larger == CLASSES {
          return;
        }
        EmptyHead(heap[..], g, {}, Bounds(), freeListPosition, larger);
        var next := ReadU32(heap, freeListPosition + 4 * larger);
        if next != 0 {
          return;
        }
      }
    }

    /** The front of a larger block; its tail goes back to the lists. */
    method TakeFront(larger: nat, index: nat) returns (address: u32)
      requires Valid() && index < larger < CLASSES && g.lists[larger] != []
      modifies heap, `g
      ensures Valid() && address != 0 && Granted(old(g), g, address, Units(index))
      ensures address == old(g.lists[larger][0]) && g == TakenFront(old(g), larger, index)
      ensures KeptSame(old(heap[..]), heap[..], old(g), Bounds(), freeListPosition)
    {
      hide Consistent, KeptSame, GetU32, SameBlocks, SameOutside;
      ListedFree(heap[..], g, Bounds(), freeListPosition, larger);
      UnitsIncrease(index, larger);
      address := TakeListed(larger);
      label L:
      SplitBlock(address, larger, index);
      TakeSplit(old(heap[..]), old@L(heap[..]), heap[..], old(g), old@L(g), g, Bounds(), freeListPosition,
                address, Units(larger), Units(index));
    }

    /** One block from the space between the text and the units, if more than its bytes are left there. */
    method GrowDown(index: nat) returns (address: u32)
      requires Valid() && index < CLASSES && glueCount >= 1
      modifies `glueCount, `fakeUnitsStart, `unitsStart, `g
      ensures Valid() && glueCount == old(glueCount) - 1
      ensures address == 0 <==> old(unitsStart - text) <= 12 * Units(index)
      ensures address != 0 ==> address == old(unitsStart) - 12 * Units(index)
      ensures address == 0 ==> g == old(g) && Bounds() == old(Bounds()) && unitsStart - text <= 12 * Units(index)
      ensures address != 0 ==> Granted(old(g), g, address, Units(index))
      ensures address != 0 ==>
                g == Grown(old(g), address, Units(index)) && Bounds() == old(Bounds()).(start := address)
    {
      hide Consistent, Granted;
      glueCount := glueCount - 1;
      var bytes := 12 * indexToUnits[index];
      var fakeBytes := 12 * indexToUnits[index];
      if fakeUnitsStart - text > fakeBytes {
        TakeBelow(heap[..], g, Bounds(), freeListPosition, index);
        fakeUnitsStart := fakeUnitsStart - fakeBytes;
        unitsStart := unitsStart - bytes;
        g := Books(Grow(g.t, unitsStart, Units(index)), g.lists, g.live + {unitsStart});
        return unitsStart;
      }
      return 0;
    }

    // ---- operations on held blocks ----

    ghost predicate Holds(address: nat, units: nat)
      reads this
    {
      && 1 <= units <= 128
      && address in g.live && address in g.t.blocks && g.t.blocks[address] == Units(ClassFor(units))
    }

    /** The caller's block moved: its contents are at the new place, and every other held byte is as it was. */
    twostate predicate MovedTo(from: u32, to: u32, index: nat, n: nat)
      requires index < CLASSES
      reads this, heap
    {
      && Valid() && text == old(text)
      && to !in old(g.live) && g.live == old(g.live) - {from} + {to}
      && to in g.t.blocks && g.t.blocks[to] == Units(index)
      && SameBlocks(old(g.live) - {from}, old(g.t), g.t)
      && SameContents(old(heap[..]), from, heap[..], to, n)
      && ReliedSame(old(heap[..]), heap[..], old(g), from, text, 1 + size, freeListPosition)
    }

    method CopyAndFree(from: u32, to: u32, fromIndex: nat, n: nat)
      requires Valid() && from in g.live && to in g.live && from != to
      requires from in g.t.blocks && to in g.t.blocks && fromIndex < CLASSES && g.t.blocks[from] == Units(fromIndex)
      requires n <= UNIT * g.t.blocks[from] && n <= UNIT * g.t.blocks[to]
      modifies heap, `g
      ensures Valid() && g == Released(old(g), fromIndex, from)
      ensures from + n <= heap.Length && to + n <= heap.Length && from + 4 <= heap.Length
      ensures heap[..] == Inserted(Copied(old(heap[..]), to, from, n), Head(freeListPosition, fromIndex), from)
    {
      hide Consistent, Inserted, Copied;
      CopyReady(heap[..], g, Bounds(), freeListPosition, from, to, fromIndex, n);
      Copy(heap, to, from, n);
      InsertNode(from, fromIndex);
      assert heap[1 + size] == heap[..][1 + size];
      g := Attach(g.(live := g.live - {from}), fromIndex, from);
    }

    /** One more unit for a held block: the same block if its class has room, otherwise a larger copy. */
    method ExpandUnits(block: u32, oldUnits: u32) returns (r: Result<u32>)
      requires Valid() && Unstamped(heap[..], g.live) && Holds(block, oldUnits)
      modifies this, heap
      ensures r.Err? <==> oldUnits == 128
                          || (ClassFor(oldUnits) != ClassFor(oldUnits + 1) && old(GapOverflows(oldUnits + 1)))
      ensures r.Err? || (oldUnits < 128 && ClassFor(oldUnits) == ClassFor(oldUnits + 1)) ==>
                Valid() && g == old(g) && heap[..] == old(heap[..]) && Bounds() == old(Bounds())
      ensures r.Ok? && ClassFor(oldUnits) == ClassFor(oldUnits + 1) ==> r.value == block
      ensures r.Ok? && ClassFor(oldUnits) != ClassFor(oldUnits + 1) && r.value == 0 ==>
                Served(0, ClassFor(oldUnits + 1))
      ensures r.Ok? && ClassFor(oldUnits) != ClassFor(oldUnits + 1) && r.value != 0 ==>
                MovedTo(block, r.value, ClassFor(oldUnits + 1), 12 * oldUnits)
      ensures r.Ok? && ClassFor(oldUnits) != ClassFor(oldUnits + 1) && old(g.lists[ClassFor(oldUnits + 1)]) != [] ==>
                r.value == old(g.lists[ClassFor(oldUnits + 1)][0])
      ensures r.Ok? && ClassFor(oldUnits) != ClassFor(oldUnits + 1) && old(g.lists[ClassFor(oldUnits + 1)]) == []
              && old(lowUnit) + 12 * Units(ClassFor(oldUnits + 1)) <= old(highUnit) ==>
                r.value == old(lowUnit)
      ensures r.Ok? && ClassFor(oldUnits) != ClassFor(oldUnits + 1) && r.value == 0 ==>
                highUnit - lowUnit < 12 * Units(ClassFor(oldUnits + 1))
      ensures r.Ok? && ClassFor(oldUnits) != ClassFor(oldUnits + 1) ==>
                var o := Allocated(old(g), old(Bounds()), old(text), old(glueCount), ClassFor(oldUnits + 1));
                Is(r.value, if o.address == 0 then o
                            else o.(g := Released(o.g, ClassFor(oldUnits), block)))
    {
      hide Consistent, Granted, KeptSame, Unstamped, ReliedSame, SameContents, Inserted, Copied, Allocated;
      if oldUnits == 128 {
        return Err(Format);
      }
      var oldIndex := unitsToIndex[oldUnits - 1];
      var newIndex := unitsToIndex[oldUnits];
      if oldIndex == newIndex {
        return Ok(block);
      }
      r := AllocateUnits(oldUnits + 1);
      if r.Ok? && r.value != 0 {
        MoveInto(block, r.value, oldIndex, newIndex, 12 * oldUnits, old(heap[..]), old(g), old(Bounds()));
      }
    }

    /** Fills a block just granted from a held one and lists the latter. */
    method MoveInto(from: u32, to: u32, fromIndex: nat, toIndex: nat, n: nat,
                    ghost s: seq<byte>, ghost before: Books, ghost a: Area)
      requires Valid() && Consistent(s, before, {}, a, freeListPosition) && a.end == 1 + size && text <= a.start
      requires KeptSame(s, heap[..], before, a, freeListPosition) && toIndex < CLASSES
      requires Granted(before, g, to, Units(toIndex))
      requires fromIndex < CLASSES && from in before.live && from in before.t.blocks
      requires before.t.blocks[from] == Units(fromIndex)
      requires n <= UNIT * Units(fromIndex) && n <= UNIT * Units(toIndex)
      modifies heap, `g
      ensures Valid() && to !in before.live && g.live == before.live - {from} + {to}
      ensures g == Released(old(g), fromIndex, from)
      ensures to in g.t.blocks && g.t.blocks[to] == Units(toIndex)
      ensures SameBlocks(before.live - {from}, before.t, g.t)
      ensures SameContents(s, from, heap[..], to, n)
      ensures ReliedSame(s, heap[..], before, from, text, a.end, freeListPosition)
    {
      hide Consistent, KeptSame, ReliedSame, SameContents, Inserted, Copied;
      ClassOfUnits(fromIndex);
      Moved(s, heap[..], before, g, a, Bounds(), freeListPosition, text, from, to, Units(toIndex), n);
      CopyConsistent(heap[..], g, Bounds(), freeListPosition, from, to, n);
      MoveListed(s, Copied(heap[..], to, from, n), before, g, a, Bounds(), freeListPosition, text, from, to, n);
      CopyAndFree(from, to, fromIndex, n);
    }

    /** Fewer units for a held block: a smaller copy if one is listed, otherwise the front of the block itself. */
    method ShrinkUnits(block: u32, oldUnits: u32, newUnits: u32) returns (address: u32)
      requires Valid() && Holds(block, oldUnits) && 1 <= newUnits <= oldUnits
      modifies heap, `g
      ensures Valid()
      ensures ClassFor(oldUnits) == ClassFor(newUnits) ==>
                address == block && g == old(g) && heap[..] == old(heap[..])
      ensures ClassFor(oldUnits) != ClassFor(newUnits) && old(g.lists[ClassFor(newUnits)]) != [] ==>
                && MovedTo(block, address, ClassFor(newUnits), 12 * newUnits)
                && address == old(g.lists[ClassFor(newUnits)][0])
                && g == Released(TakenHead(old(g), ClassFor(newUnits)), ClassFor(oldUnits), block)
      ensures ClassFor(oldUnits) != ClassFor(newUnits) && old(g.lists[ClassFor(newUnits)]) == [] ==>
                && address == block && g.live == old(g.live) && SameBlocks(g.live - {block}, old(g.t), g.t)
                && block in g.t.blocks && g.t.blocks[block] == Units(ClassFor(newUnits))
                && SameOutside(old(heap[..]), heap[..], g, freeListPosition)
                && g == Trimmed(old(g), block, Units(ClassFor(oldUnits)), Units(ClassFor(newUnits)))
    {
      hide Consistent, Granted, KeptSame, ReliedSame, SameContents, Inserted, Copied, SameOutside, GetU32;
      var oldIndex := unitsToIndex[oldUnits - 1];
      var newIndex := unitsToIndex[newUnits - 1];
      if oldIndex == newIndex {
        return block;
      }
      FirstFitOrder(newUnits, oldUnits);
      EmptyHead(heap[..], g, {}, Bounds(), freeListPosition, newIndex);
      var head := ReadU32(heap, freeListPosition + 4 * newIndex);
      if head != 0 {
        address := TakeListed(newIndex);
        MoveInto(block, address, oldIndex, newIndex, 12 * newUnits, old(heap[..]), old(g), old(Bounds()));
        return;
      }
      SplitBlock(block, oldIndex, newIndex);
      return block;
    }

    /** A held block goes back to the list of its class. */
    method FreeUnits(address: u32, oldUnits: u32)
      requires Valid() && Holds(address, oldUnits)
      modifies heap, `g
      ensures Valid() && g == Released(old(g), ClassFor(oldUnits), address)
      ensures SameOutside(old(heap[..]), heap[..], g, freeListPosition)
    {
      hide Consistent, SameOutside, Inserted;
      GiveStep(heap[..], g, Bounds(), freeListPosition, address);
      ClassOfUnits(ClassFor(oldUnits));
      var index := unitsToIndex[oldUnits - 1];
      ReleasedEnd(heap[..], Inserted(heap[..], Head(freeListPosition, index), address), g, Bounds(),
                  freeListPosition, address);
      InsertNode(address, index);
      assert heap[1 + size] == heap[..][1 + size];
      g := Attach(g.(live := g.live - {address}), index, address);
      GiveOutside(old(heap[..]), heap[..], old(g).(live := g.live), g, freeListPosition);
    }

    // ---- what the model writes itself ----

    /** A byte of a held block. */
    method StoreHeld(block: u32, offset: nat, value: byte)
      requires Valid() && block in g.live && block in g.t.blocks && offset < UNIT * g.t.blocks[block]
      modifies heap
      ensures Valid() && block + offset < heap.Length && heap[..] == old(heap[..])[block + offset := value]
    {
      hide Consistent;
      StoreReady(heap[..], g, Bounds(), freeListPosition, block, offset, value);
      heap[block + offset] := value;
    }

    /** The next symbol of the text; the model restarts when the text reaches the units. */
    method AppendText(symbol: byte) returns (restart: bool)
      requires Valid()
      modifies heap, `text
      ensures text == old(text) + 1 && heap[..] == old(heap[..])[old(text) := symbol]
      ensures restart <==> text == unitsStart
      ensures !restart ==> Valid()
      ensures Layout()
    {
      hide Consistent;
      TextReady(heap[..], g, Bounds(), freeListPosition, text, symbol);
      heap[text] := symbol;
      text := text + 1;
      restart := text >= fakeUnitsStart;
    }

    /** A symbol taken back, when the order of the model falls to zero. */
    method RetractText()
      requires Valid() && text > 1
      modifies `text
      ensures Valid() && text == old(text) - 1
    {
      text := text - 1;
    }
  }

  lemma GiveOutside(s: seq<byte>, r: seq<byte>, g: Books, g': Books, base: nat)
    requires |s| == |r| && SameOutside(s, r, g, base) && g'.t == g.t && g'.live == g.live
    ensures SameOutside(s, r, g', base)
  {
  }

  lemma StoreReady(s: seq<byte>, g: Books, a: Area, base: nat, b: nat, offset: nat, v: byte)
    requires Consistent(s, g, {}, a, base) && b in g.live && b in g.t.blocks && offset < UNIT * g.t.blocks[b]
    ensures b + offset < a.end < base && base + 4 * CLASSES <= |s|
    ensures Consistent(s[b + offset := v], g, {}, a, base)
  {
    hide Chains, Held, Grid, Tiles;
    StoreFree(s, g, a, base, b, offset);
    HeldWrite(s, s[b + offset := v], g, a, base);
  }

  lemma StoreFree(s: seq<byte>, g: Books, a: Area, base: nat, b: nat, offset: nat)
    requires Consistent(s, g, {}, a, base) && b in g.live && b in g.t.blocks && offset < UNIT * g.t.blocks[b]
    ensures b + offset < a.end < base && base + 4 * CLASSES <= |s| && !FreeByte(g, b + offset)
  {
    hide Chains, Held, Grid;
    BlockBounds(s, g, {}, a, base, b);
    Covered(g.t, a, b, b + offset);
  }

  lemma TextReady(s: seq<byte>, g: Books, a: Area, base: nat, text: nat, v: byte)
    requires Consistent(s, g, {}, a, base) && text < a.start
    ensures text < a.end < base && base + 4 * CLASSES <= |s|
    ensures Consistent(s[text := v], g, {}, a, base)
  {
    assert !InArea(a, text);
    assert a.start <= a.end;
    hide Chains, Held, Tiles, Grid;
    HeldWrite(s, s[text := v], g, a, base);
  }

  lemma FirstFitOrder(u: nat, v: nat)
    requires 1 <= u <= v <= 128
    ensures ClassFor(u) <= ClassFor(v)
  {
    FirstFit(ClassFor(v), u);
  }

  lemma CopyReady(s: seq<byte>, g: Books, a: Area, base: nat, from: nat, to: nat, i: nat, n: nat)
    requires Consistent(s, g, {}, a, base) && from in g.live && to in g.live && from != to
    requires n <= UNIT * g.t.blocks[from] && n <= UNIT * g.t.blocks[to]
    requires i < CLASSES && g.t.blocks[from] == Units(i)
    ensures from + n <= |s| && to + n <= |s| && from + 12 <= |s| < 0x1_0000_0000 && base + 4 * CLASSES <= |s|
    ensures a.end < |s| && var r := Inserted(Copied(s, to, from, n), Head(base, i), from);
            && Consistent(r, Attach(g.(live := g.live - {from}), i, from), {}, a, base)
            && r[a.end] == s[a.end]
  {
    ClassOfUnits(i);
    CopyConsistent(s, g, a, base, from, to, n);
    var m := Copied(s, to, from, n);
    EndUncovered(s, g, a, base);
    hide Consistent, Inserted, Copied, GetU32, PutU32, Attach;
    GiveStep(m, g, a, base, from);
    ReleasedEnd(m, Inserted(m, Head(base, i), from), g, a, base, from);
  }

  lemma EndUncovered(s: seq<byte>, g: Books, a: Area, base: nat)
    requires Consistent(s, g, {}, a, base)
    ensures a.end !in g.t.cover && a.end < base && base + 4 * CLASSES <= |s|
  {
    assert !InArea(a, a.end);
  }

  lemma ReleasedEnd(s: seq<byte>, r: seq<byte>, g: Books, a: Area, base: nat, b: nat)
    requires Consistent(s, g, {}, a, base) && |r| == |s|
    requires SameOutside(s, r, g.(live := g.live - {b}), base)
    ensures a.end < |s| && r[a.end] == s[a.end]
  {
    EndUncovered(s, g, a, base);
  }

  /** Below 4 GiB less 1537 bytes the overflow arm of `AllocateUnits` is dead. */
  lemma GapNeverOverflows(a: SubAllocator, units: nat)
    requires a.Valid() && a.size + 1537 < 0x1_0000_0000
    ensures !a.GapOverflows(units)
  {
    HighBound(a.heap[..], a.g, a.Bounds(), a.freeListPosition);
  }

  /** A fresh heap is not stamped anywhere. */
  lemma ZeroUnstamped(s: seq<byte>, g: Books, a: Area, base: nat)
    requires Consistent(s, g, {}, a, base) && base <= |s| && forall x | 0 <= x < base :: s[x] == 0
    ensures Unstamped(s, g.live)
  {
    hide Consistent;
    forall b | b in g.live && b + 2 <= |s| ensures GetU16(s, b) != STAMP {
      LiveBlock(s, g, a, base, b);
    }
  }

  lemma LiveBlock(s: seq<byte>, g: Books, a: Area, base: nat, b: nat)
    requires Consistent(s, g, {}, a, base) && b in g.live
    ensures b + 2 <= base
  {
    hide Chains, Grid, Tiles;
    BlockBounds(s, g, {}, a, base, b);
  }

  /** A caller that has used up the gap one unit at a time and asks for `units` more gets the overflow error if and only
      if a block of their class would end behind the last 32-bit address; so the bound above is the exact one. */
  method RequestBehindGap(size: u32, units: u32) returns (overflow: bool)
    requires MINIMUM_MEMORY <= size && size / 12 * 12 + 12 + 1 + 4 * CLASSES + 12 < 0x1_0000_0000
    requires 1 <= units <= 128
    ensures overflow <==> 1 + size + 12 * Units(ClassFor(units)) >= 0x1_0000_0000
  {
    hide Consistent, Unstamped, Granted, KeptSame, Rare;
    var r := SubAllocator.New(size);
    var a := r.value;
    a.Initialize();
    while a.lowUnit != a.highUnit
      invariant fresh(a) && fresh(a.heap) && a.Valid() && a.highUnit == 1 + size && NoneListed(a.g.lists)
      invariant a.freeListPosition <= a.heap.Length && forall x | 0 <= x < a.freeListPosition :: a.heap[..][x] == 0
      decreases a.highUnit - a.lowUnit
    {
      ZeroUnstamped(a.heap[..], a.g, a.Bounds(), a.freeListPosition);
      var unit := a.AllocateUnits(1);
    }
    ZeroUnstamped(a.heap[..], a.g, a.Bounds(), a.freeListPosition);
    var last := a.AllocateUnits(units);
    overflow := last.Err?;
  }

  lemma HighBound(s: seq<byte>, g: Books, a: Area, base: nat)
    requires Consistent(s, g, {}, a, base)
    ensures a.low <= a.high <= a.end
  {
  }

  lemma AfterGlue(s: seq<byte>, m: seq<byte>, r: seq<byte>, g: Books, g1: Books, g2: Books, b: nat, n: nat,
                  a: Area, base: nat)
    requires Conserved(g, g1) && KeptSame(s, m, g, a, base)
    requires Granted(g1, g2, b, n) && KeptSame(m, r, g1, a, base)
    ensures Granted(g, g2, b, n) && KeptSame(s, r, g, a, base)
  {
    GrantedTrans(g, g1, g2, b, n);
    KeptTrans(s, m, r, g, g1, a, base);
  }

  lemma NoneAfterGlue(s: seq<byte>, m: seq<byte>, r: seq<byte>, g: Books, g1: Books, a: Area, base: nat)
    requires Conserved(g, g1) && KeptSame(s, m, g, a, base) && KeptSame(m, r, g1, a, base)
    ensures g1.live == g.live && SameBlocks(g1.live, g.t, g1.t) && KeptSame(s, r, g, a, base)
  {
    KeptTrans(s, m, r, g, g1, a, base);
  }

  lemma AttachConserves(s: seq<byte>, m: seq<byte>, r: seq<byte>, g: Books, g1: Books, g2: Books, base: nat)
    requires |s| == |m| == |r| && Conserved(g, g1) && g2.t == g1.t && g2.live == g1.live
    requires SameOutside(s, m, g1, base) && SameOutside(m, r, g2, base)
    ensures Conserved(g, g2) && SameOutside(s, r, g2, base)
  {
  }

  /** A tail of at most 128 units, its first piece listed first. */
  lemma DealtShort(g: Books, b: nat, units: nat)
    requires b in g.t.blocks && 1 <= g.t.blocks[b] == units <= 128
    ensures var i := ClassFor(units);
            if Units(i) == units then Dealt(g, b, units) == Attach(g, i, b)
            else && i > 0 && CanSplit(g.t, b, Units(i - 1)) && 1 <= units - Units(i - 1) <= 3
                 && var k := Units(i - 1);
                    Dealt(g, b, units)
                    == Attach(Attach(g.(t := Split(g.t, b, k)), i - 1, b), units - k - 1, b + UNIT * k)
  {
    hide Split;
    var i := ClassFor(units);
    if Units(i) != units {
      AttachBoth(g.(t := Split(g.t, b, Units(i - 1))), i - 1, b, units - Units(i - 1) - 1, b + UNIT * Units(i - 1));
    }
  }

  lemma AttachBoth(g: Books, i: nat, b: nat, j: nat, c: nat)
    requires i < CLASSES && j < CLASSES && i != j
    ensures Attach(Attach(g, i, b), j, c) == Attach(Attach(g, j, c), i, b)
  {
    var x, y := Attach(Attach(g, i, b), j, c), Attach(Attach(g, j, c), i, b);
    assert x.lists == y.lists;
  }

  lemma NothingListed(lists: FreeLists)
    requires NoneListed(lists)
    ensures lists == NoLists()
  {
  }

  lemma KeepLive(g: Books, g': Books)
    requires Conserved(g, g')
    ensures g'.live == g.live
  {
  }

  /** A cut followed by one listing. */
  lemma OneCut(s: seq<byte>, r: seq<byte>, g: Books, g1: Books, g2: Books, base: nat)
    requires |s| == |r| && Conserved(g, g1) && SameOutside(s, r, g1, base)
    requires g2.t == g1.t && g2.live == g1.live
    ensures Conserved(g, g2) && SameOutside(s, r, g, base)
  {
  }

  /** Three stages in a row, each conserving the free bytes and writing nothing else. */
  lemma DealtAll(s: seq<byte>, s1: seq<byte>, s2: seq<byte>, s3: seq<byte>,
                 g: Books, g1: Books, g2: Books, g3: Books, base: nat)
    requires |s| == |s1| == |s2| == |s3|
    requires Conserved(g, g1) && Conserved(g1, g2)
    requires Conserved(g2, g3) || (g3.t == g2.t && g3.live == g2.live)
    requires SameOutside(s, s1, g, base) && SameOutside(s1, s2, g1, base) && SameOutside(s2, s3, g2, base)
    ensures Conserved(g, g3) && SameOutside(s, s3, g, base)
  {
    hide SameOutside;
    if g3.t == g2.t && g3.live == g2.live { SameBooks(g2, g3); }
    hide Conserved;
    ConservedTrans(g, g1, g2);
    ConservedTrans(g, g2, g3);
    OutsideTrans(s, s1, s2, g, g1, base);
    OutsideTrans(s, s2, s3, g, g2, base);
  }

  lemma SameBooks(g: Books, g': Books)
    requires g'.t == g.t && g'.live == g.live
    ensures Conserved(g, g')
  {
  }

  lemma LayoutBounds(size: nat)
    requires MINIMUM_MEMORY <= size
    ensures 0 <= 12 * (size / 8 / 12 * 7) <= size - 1
    ensures 1 + size < 1 + size / 12 * 12 + 12
    ensures 12 * (size / 8 / 12 * 7) % 12 == 0
  {
  }

  lemma FirstFit(i: nat, u: nat)
    requires i < CLASSES && 1 <= u <= 128
    ensures Units(i) < u <==> i < ClassFor(u)
  {
    var c := ClassFor(u);
    if i < c && i != c - 1 { UnitsIncrease(i, c - 1); }
    if c < i { UnitsIncrease(c, i); }
  }

  lemma ClassesGrow(u: nat)
    requires 1 <= u <= 128
    ensures ClassFor(u) <= ClassFor(Min(u + 1, 128))
  {
    FirstFit(ClassFor(Min(u + 1, 128)), u);
  }

  lemma FreshConsistent(s: seq<byte>, a: Area, base: nat)
    requires 0 < a.start == a.low <= a.high == a.end < base && base + 4 * CLASSES <= |s| < 0x1_0000_0000
    requires (a.high - a.low) % 12 == 0
    requires forall x | base <= x < base + 4 * CLASSES :: s[x] == 0
    ensures Consistent(s, Books(Tiling(map[], map[]), seq(CLASSES, i => []), {}), {}, a, base)
  {
    var lists: FreeLists := seq(CLASSES, i => []);
    forall i | 0 <= i < CLASSES ensures Chained(s, Head(base, i), lists[i]) {
      assert GetU32(s, Head(base, i)) == 0;
    }
  }
}
