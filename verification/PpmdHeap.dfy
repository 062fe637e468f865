/** The byte heap of the PPMd7 decoder: little-endian words over a byte buffer. */
module PpmdHeap {
  import opened Prelude

  function GetU16(s: seq<byte>, a: nat): (v: nat)
    requires a + 2 <= |s|
    ensures v < 0x1_0000
  {
    s[a] as int + 0x100 * s[a + 1] as int
  }

  function GetU32(s: seq<byte>, a: nat): (v: u32)
    requires a + 4 <= |s|
  {
    s[a] as int + 0x100 * s[a + 1] as int + 0x1_0000 * s[a + 2] as int + 0x100_0000 * s[a + 3] as int
  }

  function PutU16(s: seq<byte>, a: nat, v: nat): (r: seq<byte>)
    requires a + 2 <= |s| && v < 0x1_0000
    ensures |r| == |s| && GetU16(r, a) == v
    ensures forall x :: 0 <= x < |s| && !(a <= x < a + 2) ==> r[x] == s[x]
  {
    s[..a] + [v % 0x100, v / 0x100] + s[a + 2..]
  }

  function PutU32(s: seq<byte>, a: nat, v: u32): (r: seq<byte>)
    requires a + 4 <= |s|
    ensures |r| == |s| && GetU32(r, a) == v
    ensures forall x :: 0 <= x < |s| && !(a <= x < a + 4) ==> r[x] == s[x]
  {
    var v1, v2 := v / 0x100, v / 0x1_0000;
    s[..a] + [v % 0x100, v1 % 0x100, v2 % 0x100, v2 / 0x100] + s[a + 4..]
  }

  /** A 32-bit word is the same in two heaps that agree on its four bytes. */
  lemma SameWord(s: seq<byte>, r: seq<byte>, a: nat)
    requires |s| == |r| && a + 4 <= |s|
    requires forall x :: a <= x < a + 4 ==> r[x] == s[x]
    ensures GetU32(r, a) == GetU32(s, a)
  {
  }

  method ReadU16(heap: array<byte>, address: nat) returns (v: nat)
    requires address + 2 <= heap.Length
    ensures v == GetU16(heap[..], address) && v < 0x1_0000
  {
    v := heap[address] as int + 0x100 * heap[address + 1] as int;
  }

  method ReadU32(heap: array<byte>, address: nat) returns (v: u32)
    requires address + 4 <= heap.Length
    ensures v == GetU32(heap[..], address)
  {
    v := heap[address] as int + 0x100 * heap[address + 1] as int
    + 0x1_0000 * heap[address + 2] as int + 0x100_0000 * heap[address + 3] as int;
  }

  method WriteU16(heap: array<byte>, address: nat, v: nat)
    requires address + 2 <= heap.Length && v < 0x1_0000
    modifies heap
    ensures heap[..] == PutU16(old(heap[..]), address, v)
  {
    heap[address] := v % 0x100;
    heap[address + 1] := v / 0x100;
  }

  /** The four shifts of the program select the bytes 0, 8, 16 and 24 bits up. */
  method WriteU32(heap: array<byte>, address: nat, v: u32)
    requires address + 4 <= heap.Length
    modifies heap
    ensures heap[..] == PutU32(old(heap[..]), address, v)
  {
    var v1, v2 := v / 0x100, v / 0x1_0000;
    heap[address] := v % 0x100;
    heap[address + 1] := v1 % 0x100;
    heap[address + 2] := v2 % 0x100;
    heap[address + 3] := v2 / 0x100;
  }

  function Copied(s: seq<byte>, destination: nat, source: nat, size: nat): (r: seq<byte>)
    requires source + size <= |s| && destination + size <= |s|
    ensures |r| == |s|
    ensures forall x :: destination <= x < destination + size ==> r[x] == s[source + (x - destination)]
    ensures forall x :: 0 <= x < |s| && !(destination <= x < destination + size) ==> r[x] == s[x]
  {
    s[..destination] + s[source..source + size] + s[destination + size..]
  }

  /** `copy_within`: the source is read completely before it is overwritten. */
  method Copy(heap: array<byte>, destination: nat, source: nat, size: nat)
    requires source + size <= heap.Length && destination + size <= heap.Length
    modifies heap
    ensures heap[..] == Copied(old(heap[..]), destination, source, size)
  {
    forall x | destination <= x < destination + size {
      heap[x] := heap[source + (x - destination)];
    }
  }

  method Clear(heap: array<byte>, address: nat, size: nat)
    requires address + size <= heap.Length
    modifies heap
    ensures forall x :: address <= x < address + size ==> heap[x] == 0
    ensures forall x :: 0 <= x < heap.Length && !(address <= x < address + size) ==> heap[x] == old(heap[x])
  {
    forall x | address <= x < address + size {
      heap[x] := 0;
    }
  }
}
