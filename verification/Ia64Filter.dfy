/** The IA64 branch filter, over 16-byte bundles of a template and three 41-bit instructions. */
module Ia64Filter {
  import opened Prelude
  import F = BranchFilters

  /** Which of the three instructions each template marks as branches, one bit each. */
  const MASKS: seq<nat> := [
    0, 0, 0, 0, 0, 0, 0, 0, 0, 0, 0, 0, 0, 0, 0, 0, 4, 4, 6, 6, 0, 0, 7, 7, 4, 4, 0, 0, 4, 4, 0, 0
  ]

  predicate Masked(template: nat, slot: nat)
    requires template < 32 && slot < 3
  {
    MASKS[template] / (if slot == 0 then 1 else if slot == 1 then 2 else 4) % 2 == 1
  }

  // ---- one instruction ----

  /** The fields of an instruction: 13 bits, 20 bits of target, 3 bits, the target's top bit, the opcode. */
  datatype Fields = Fields(low: nat, target: nat, middle: nat, high: nat, opcode: nat)

  function Split(n: nat): (f: Fields)
    ensures f.low < 0x2000 && f.target < 0x10_0000 && f.middle < 8 && f.high < 2
  {
    var q := n / 0x2000;
    var r := q / 0x10_0000;
    Fields(n % 0x2000, q % 0x10_0000, r % 8, r / 8 % 2, r / 8 / 2)
  }

  function Join(f: Fields): nat {
    f.low + 0x2000 * (f.target + 0x10_0000 * (f.middle + 8 * (f.high + 2 * f.opcode)))
  }

  lemma JoinSplit(n: nat)
    ensures Join(Split(n)) == n
  {
  }

  lemma SplitJoin(f: Fields)
    requires f.low < 0x2000 && f.target < 0x10_0000 && f.middle < 8 && f.high < 2
    ensures Split(Join(f)) == f
  {
    var e := f.high + 2 * f.opcode;
    var r := f.middle + 8 * e;
    var q := f.target + 0x10_0000 * r;
    DivModIs(Join(f), 0x2000, q, f.low);
    DivModIs(q, 0x10_0000, r, f.target);
    DivModIs(r, 8, e, f.middle);
  }

  /** Opcode 5 with a zero branch type; bits above the instruction do not matter. */
  predicate IsBranch(n: nat) {
    Split(n).opcode % 16 == 5 && Split(n).low / 0x200 % 8 == 0
  }

  /** The target in bundles. */
  function Target(n: nat): (t: nat)
    ensures t < 0x20_0000
  {
    Split(n).target + 0x10_0000 * Split(n).high
  }

  /** Sixteen times the target minus (or plus) the position, modulo 2^32; only 21 bits of the quotient are stored. */
  function Step(position: u32, t: nat, back: bool): (u: nat)
    requires t < 0x20_0000
    ensures u < 0x20_0000
  {
    F.Moved(16 * t, position, F.WORDS, back) / 16 % 0x20_0000
  }

  function WithTarget(n: nat, t: nat): nat
    requires t < 0x20_0000
  {
    Join(Split(n).(target := t % 0x10_0000, high := t / 0x10_0000))
  }

  function Rewritten(position: u32, n: nat, back: bool): nat {
    if IsBranch(n) then WithTarget(n, Step(position, Target(n), back)) else n
  }

  lemma WithTargetIs(n: nat, t: nat)
    requires t < 0x20_0000
    ensures Target(WithTarget(n, t)) == t && (IsBranch(WithTarget(n, t)) <==> IsBranch(n))
    ensures WithTarget(WithTarget(n, t), Target(n)) == n
  {
    var f := Split(n).(target := t % 0x10_0000, high := t / 0x10_0000);
    SplitJoin(f);
    hide Split, Join;
    TargetDigits(Split(n).target, Split(n).high);
    assert f.(target := Split(n).target, high := Split(n).high) == Split(n);
    JoinSplit(n);
  }

  lemma TargetDigits(low: nat, high: nat)
    requires low < 0x10_0000 && high < 2
    ensures (low + 0x10_0000 * high) % 0x10_0000 == low && (low + 0x10_0000 * high) / 0x10_0000 == high
  {
  }

  const TARGETS: nat := 0x20_0000

  /** The bundles a position stands for: rounded up when subtracting, down when adding. */
  function Bundles(position: u32, back: bool): nat {
    position / 16 + if back || position % 16 == 0 then 0 else 1
  }

  lemma StepIs(position: u32, t: nat, back: bool)
    requires t < TARGETS
    ensures Step(position, t, back) == F.Moved(t, Bundles(position, back), TARGETS, back)
  {
    var h: nat, e: nat := position / 16, position % 16;
    if back {
      StepSum(t, h, e);
    } else {
      StepDifference(t, h, e);
    }
  }

  lemma StepSum(t: nat, h: nat, e: nat)
    requires t < TARGETS && e < 16 && 16 * h + e < F.WORDS
    ensures F.Moved(16 * t, 16 * h + e, F.WORDS, true) / 16 % TARGETS == F.Moved(t, h, TARGETS, true)
  {
    var wrap: nat := if 16 * t + 16 * h + e < F.WORDS then 0 else 128;
    var q, rest := h / TARGETS, h % TARGETS;
    var carry: nat := if t + rest < TARGETS then 0 else 1;
    var y := F.Moved(16 * t, 16 * h + e, F.WORDS, true);
    Small(16 * h + e);
    assert y == 16 * (t + h - wrap * TARGETS) + e;
    DivModIs(y, 16, t + h - wrap * TARGETS, e);
    DivModIs(y / 16, TARGETS, q + carry - wrap, t + rest - carry * TARGETS);
  }

  lemma Small(x: nat)
    requires x < F.WORDS
    ensures x % F.WORDS == x
  {
  }

  lemma StepDifference(t: nat, h: nat, e: nat)
    requires t < TARGETS && e < 16 && 16 * h + e < F.WORDS
    ensures F.Moved(16 * t, 16 * h + e, F.WORDS, false) / 16 % TARGETS
         == F.Moved(t, h + (if e == 0 then 0 else 1), TARGETS, false)
  {
    var a: nat := h + if e == 0 then 0 else 1;
    var wrap: nat := if 16 * h + e <= 16 * t then 0 else 128;
    var q, rest := a / TARGETS, a % TARGETS;
    var borrow: nat := if rest <= t then 0 else 1;
    var y := F.Moved(16 * t, 16 * h + e, F.WORDS, false);
    Small(16 * h + e);
    assert y == 16 * (t - a + wrap * TARGETS) + (if e == 0 then 0 else 16 - e);
    DivModIs(y, 16, t - a + wrap * TARGETS, if e == 0 then 0 else 16 - e);
    DivModIs(y / 16, TARGETS, wrap - q - borrow, t - rest + borrow * TARGETS);
  }

  lemma NextStep(h: nat)
    ensures (h + 1) % TARGETS == if h % TARGETS == TARGETS - 1 then 0 else h % TARGETS + 1
  {
  }

  /** From a bundle boundary the opposite step restores the target; from anywhere else it is one bundle off. */
  lemma StepInverse(position: u32, t: nat, back: bool)
    requires t < TARGETS
    ensures Step(position, Step(position, t, back), !back) == t <==> position % 16 == 0
  {
    var h := position / 16;
    StepIs(position, t, back);
    StepIs(position, Step(position, t, back), !back);
    hide Step;
    if position % 16 == 0 {
      F.MovedBack(t, h, TARGETS, back);
    } else {
      NextStep(h);
    }
  }

  /** Rewriting keeps the bits that select instructions, so the opposite rewriting restores every instruction. */
  lemma RewrittenInverse(position: u32, n: nat, back: bool)
    ensures Rewritten(position, Rewritten(position, n, back), !back) == n
       <==> position % 16 == 0 || !IsBranch(n)
  {
    hide IsBranch, Target, Step, WithTarget;
    if IsBranch(n) {
      var t := Target(n);
      var u := Step(position, t, back);
      var v := Step(position, u, !back);
      StepInverse(position, t, back);
      WithTargetIs(n, u);
      WithTargetIs(WithTarget(n, u), v);
    }
  }

  // ---- one bundle ----

  const SLOT: nat := 0x200_0000_0000

  datatype Bundle = Bundle(template: nat, slots: seq<nat>)

  predicate BundleOk(x: Bundle) {
    x.template < 32 && |x.slots| == 3 && forall i | 0 <= i < 3 :: x.slots[i] < SLOT
  }

  /** The bundle as a number: five bits and three times 41. */
  function Close(x: Bundle): nat
    requires |x.slots| == 3
  {
    x.template + 32 * (x.slots[0] + SLOT * (x.slots[1] + SLOT * x.slots[2]))
  }

  function Open(b: nat): (x: Bundle)
    requires b < Pow256(16)
    ensures BundleOk(x)
  {
    SixteenBytes();
    hide Pow256;
    var r := b / 32;
    var q := r / SLOT;
    var x := Bundle(b % 32, [r % SLOT, q % SLOT, q / SLOT]);
    x
  }

  lemma SixteenBytes()
    ensures Pow256(16) == 32 * (SLOT * (SLOT * SLOT))
    ensures Pow256(5) == 0x100_0000_0000 && Pow256(6) == 0x1_0000_0000_0000
    ensures Pow256(10) == 0x100_0000_0000 * 0x100_0000_0000
  {
    assert Pow256(4) == 0x1_0000_0000;
    assert Pow256(7) == 0x100_0000_0000_0000;
    assert Pow256(10) == 0x100_0000_0000_0000 * 0x100_0000;
    assert Pow256(13) == 0x100_0000_0000_0000 * 0x1_0000_0000_0000;
  }

  lemma CloseOpen(b: nat)
    requires b < Pow256(16)
    ensures Close(Open(b)) == b
  {
    hide Pow256;
  }

  lemma OpenClose(x: Bundle)
    requires BundleOk(x)
    ensures Close(x) < Pow256(16) && Open(Close(x)) == x
  {
    SixteenBytes();
    hide Pow256;
    var q := x.slots[1] + SLOT * x.slots[2];
    var r := x.slots[0] + SLOT * q;
    DivModIs(Close(x), 32, r, x.template);
    DivModIs(r, SLOT, q, x.slots[0]);
    DivModIs(q, SLOT, x.slots[2], x.slots[1]);
  }

  lemma TopBits(v: nat, e: nat)
    requires v < SLOT
    ensures Split(v).opcode < 16 && Split(v + SLOT * e) == Split(v).(opcode := Split(v).opcode + 16 * e)
  {
    var f := Split(v);
    JoinSplit(v);
    hide Split;
    var g := f.(opcode := f.opcode + 16 * e);
    assert Join(g) == v + SLOT * e;
    SplitJoin(g);
  }

  lemma JoinTop(f: Fields, e: nat)
    requires f.low < 0x2000 && f.target < 0x10_0000 && f.middle < 8 && f.high < 2 && f.opcode < 16
    ensures Join(f) < SLOT && Join(f.(opcode := f.opcode + 16 * e)) == Join(f) + SLOT * e
  {
  }

  lemma BranchTop(v: nat, e: nat)
    requires v < SLOT
    ensures (IsBranch(v + SLOT * e) <==> IsBranch(v)) && Target(v + SLOT * e) == Target(v)
  {
    TopBits(v, e);
    hide Split;
    OpcodeTop(Split(v).opcode, e);
  }

  lemma WithTargetTop(v: nat, e: nat, t: nat)
    requires v < SLOT && t < TARGETS
    ensures WithTarget(v + SLOT * e, t) == WithTarget(v, t) + SLOT * e && WithTarget(v, t) < SLOT
  {
    TopBits(v, e);
    hide Split, Join;
    JoinTop(Split(v).(target := t % 0x10_0000, high := t / 0x10_0000), e);
  }

  /** Bits above an instruction neither matter nor change. */
  lemma RewrittenTop(position: u32, v: nat, e: nat, back: bool)
    requires v < SLOT
    ensures Rewritten(position, v + SLOT * e, back) == Rewritten(position, v, back) + SLOT * e
    ensures Rewritten(position, v, back) < SLOT
  {
    hide Step, IsBranch, Target, WithTarget;
    BranchTop(v, e);
    WithTargetTop(v, e, Step(position, Target(v), back));
  }

  lemma OpcodeTop(opcode: nat, e: nat)
    ensures (opcode + 16 * e) % 16 == opcode % 16
  {
  }

  /** The first `k` instructions rewritten where the template says so. */
  function Stepped(position: u32, x: Bundle, k: nat, back: bool): (y: Bundle)
    requires BundleOk(x)
    ensures BundleOk(y) && y.template == x.template
  {
    hide Rewritten, Masked;
    assert forall i | 0 <= i < 3 :: Rewritten(position, x.slots[i], back) < SLOT by {
      forall i | 0 <= i < 3 ensures Rewritten(position, x.slots[i], back) < SLOT {
        RewrittenTop(position, x.slots[i], 0, back);
      }
    }
    x.(slots := seq(3, i requires 0 <= i < 3 =>
      if i < k && Masked(x.template, i) then Rewritten(position, x.slots[i], back) else x.slots[i]))
  }

  lemma SteppedInverse(position: u32, x: Bundle, back: bool)
    requires BundleOk(x)
    ensures Stepped(position, Stepped(position, x, 3, back), 3, !back) == x
       <==> position % 16 == 0 || forall i | 0 <= i < 3 :: Masked(x.template, i) ==> !IsBranch(x.slots[i])
  {
    hide Rewritten, Masked, IsBranch;
    var y := Stepped(position, x, 3, back);
    var z := Stepped(position, y, 3, !back);
    forall i | 0 <= i < 3
      ensures z.slots[i] == x.slots[i] <==> position % 16 == 0 || (Masked(x.template, i) ==> !IsBranch(x.slots[i]))
    {
      RewrittenInverse(position, x.slots[i], back);
    }
    if forall i | 0 <= i < 3 :: z.slots[i] == x.slots[i] {
      assert z.slots == x.slots;
    }
  }

  function BundleBytes(position: u32, s: seq<byte>, back: bool): (t: seq<byte>)
    requires |s| == 16
    ensures |t| == 16
  {
    LittleBound(s);
    LittleBytes(Close(Stepped(position, Open(LittleEndian(s)), 3, back)), 16)
  }

  /** No instruction of the bundle is one the filter rewrites. */
  predicate QuietBundle(s: seq<byte>)
    requires |s| == 16
  {
    LittleBound(s);
    var x := Open(LittleEndian(s));
    forall i | 0 <= i < 3 :: Masked(x.template, i) ==> !IsBranch(x.slots[i])
  }

  /** The bytes of a bundle stand for it. */
  lemma Reopened(x: Bundle)
    requires BundleOk(x)
    ensures LittleEndian(LittleBytes(Close(x), 16)) < Pow256(16)
    ensures Open(LittleEndian(LittleBytes(Close(x), 16))) == x
  {
    OpenClose(x);
    hide Open, Close, Pow256;
    LittleOfBytes(Close(x), 16);
  }

  lemma Reclosed(s: seq<byte>)
    requires |s| == 16
    ensures LittleEndian(s) < Pow256(16) && LittleBytes(Close(Open(LittleEndian(s))), 16) == s
  {
    hide Open, Close, Pow256;
    LittleBound(s);
    CloseOpen(LittleEndian(s));
    LittleInverse(s);
  }

  lemma BundleInverse(position: u32, s: seq<byte>, back: bool)
    requires |s| == 16
    ensures BundleBytes(position, BundleBytes(position, s, back), !back) == s
       <==> position % 16 == 0 || QuietBundle(s)
  {
    LittleBound(s);
    hide Open, Close, Pow256, Stepped, LittleBytes, LittleEndian, Masked, IsBranch, BundleOk;
    var x := Open(LittleEndian(s));
    var y := Stepped(position, x, 3, back);
    var z := Stepped(position, y, 3, !back);
    Reclosed(s);
    Reopened(y);
    Reopened(z);
    SteppedInverse(position, x, back);
  }

  // ---- whole buffers ----

  function BundlePosition(start: u32, offset: nat): u32 {
    (start + offset) % F.WORDS
  }

  /** Every whole bundle in turn; a rest of fewer than sixteen bytes stays. */
  function Scan(start: u32, offset: nat, s: seq<byte>, back: bool): (t: seq<byte>)
    ensures |t| == |s|
    decreases |s|
  {
    if |s| < 16 then s
    else BundleBytes(BundlePosition(start, offset), s[..16], back) + Scan(start, offset + 16, s[16..], back)
  }

  predicate Quiet(s: seq<byte>)
    decreases |s|
  {
    |s| < 16 || (QuietBundle(s[..16]) && Quiet(s[16..]))
  }

  /** The opposite scan restores the input from a multiple of sixteen, or when there was nothing to rewrite. */
  lemma {:induction false} ScanInverse(start: u32, offset: nat, s: seq<byte>, back: bool)
    requires offset % 16 == 0
    ensures Scan(start, offset, Scan(start, offset, s, back), !back) == s <==> start % 16 == 0 || Quiet(s)
    decreases |s|
  {
    hide BundleBytes, QuietBundle, BundlePosition;
    if |s| >= 16 {
      hide Scan, Quiet;
      var p := BundlePosition(start, offset);
      ScanBundle(start, offset, s, back);
      var t := Scan(start, offset, s, back);
      ScanBundle(start, offset, t, !back);
      QuietAfter(s);
      var u := Scan(start, offset, t, !back);
      Halves(u, BundleBytes(p, t[..16], !back), Scan(start, offset + 16, t[16..], !back), s);
      BundleInverse(p, s[..16], back);
      SamePhase(start, offset);
      ScanInverse(start, offset + 16, s[16..], back);
    }
  }

  lemma ScanBundle(start: u32, offset: nat, s: seq<byte>, back: bool)
    requires |s| >= 16
    ensures var t, head := Scan(start, offset, s, back), BundleBytes(BundlePosition(start, offset), s[..16], back);
            && t == head + Scan(start, offset + 16, s[16..], back)
            && t[..16] == head && t[16..] == Scan(start, offset + 16, s[16..], back)
  {
    hide BundleBytes, BundlePosition;
  }

  lemma QuietAfter(s: seq<byte>)
    requires |s| >= 16
    ensures Quiet(s) <==> QuietBundle(s[..16]) && Quiet(s[16..])
  {
    hide QuietBundle;
  }

  lemma Halves(u: seq<byte>, a: seq<byte>, b: seq<byte>, s: seq<byte>)
    requires |a| == 16 && u == a + b && |s| == |u|
    ensures u == s <==> a == s[..16] && b == s[16..]
  {
    assert s == s[..16] + s[16..];
    assert u[..16] == a && u[16..] == b;
  }

  lemma SamePhase(start: u32, offset: nat)
    requires offset % 16 == 0
    ensures BundlePosition(start, offset) % 16 == start % 16
  {
    var k, q := offset / 16, (start + offset) / F.WORDS;
    assert BundlePosition(start, offset) == start + 16 * (k - q * 0x1000_0000);
    Sixteens(start, k - q * 0x1000_0000);
  }

  lemma Sixteens(x: nat, k: int)
    ensures (x + 16 * k) % 16 == x % 16
  {
  }

  /** The filter is a bijection undone by the same scan exactly from starting positions that are multiples of 16. */
  lemma Ia64Inverse(start: u32)
    ensures (forall s: seq<byte>, back: bool :: Scan(start, 0, Scan(start, 0, s, back), !back) == s)
       <==> start % 16 == 0
  {
    hide Scan, Quiet;
    forall s: seq<byte>, back: bool
      ensures Scan(start, 0, Scan(start, 0, s, back), !back) == s <==> start % 16 == 0 || Quiet(s)
    {
      ScanInverse(start, 0, s, back);
    }
    if start % 16 != 0 {
      LoudBundle();
      assert Scan(start, 0, Scan(start, 0, LoudBytes(), false), true) != LoudBytes();
    }
  }

  /** A branch in the third slot of a bundle whose template marks it. */
  function LoudBytes(): seq<byte> {
    LittleBytes(Close(Bundle(16, [0, 0, Join(Fields(0, 0, 0, 0, 5))])), 16)
  }

  lemma LoudBundle()
    ensures !Quiet(LoudBytes())
  {
    hide Open, Close, Join, Split, Masked, IsBranch, Pow256, LittleEndian, LittleBytes, BundleOk;
    var f := Fields(0, 0, 0, 0, 5);
    var x := Bundle(16, [0, 0, Join(f)]);
    LoudValue();
    LoudBranch();
    Reopened(x);
    assert LoudBytes()[..16] == LoudBytes();
    assert x.slots[2] == Join(f);
  }

  lemma LoudValue()
    ensures BundleOk(Bundle(16, [0, 0, Join(Fields(0, 0, 0, 0, 5))]))
  {
    assert Join(Fields(0, 0, 0, 0, 5)) == 0xa0_0000_0000;
  }

  lemma LoudBranch()
    ensures Masked(16, 2) && IsBranch(Join(Fields(0, 0, 0, 0, 5)))
  {
    SplitJoin(Fields(0, 0, 0, 0, 5));
  }

  // ---- windows of six bytes ----

  /** Value of the lowest bit of a slot. */
  function Weight(slot: nat): (w: nat)
    requires slot < 3
    ensures w >= 1
  {
    if slot == 0 then 32 else if slot == 1 then 32 * SLOT else 32 * (SLOT * SLOT)
  }

  function Below(x: Bundle, slot: nat): nat
    requires BundleOk(x) && slot < 3
  {
    if slot == 0 then x.template
    else if slot == 1 then x.template + 32 * x.slots[0]
    else x.template + 32 * (x.slots[0] + SLOT * x.slots[1])
  }

  function Above(x: Bundle, slot: nat): nat
    requires BundleOk(x) && slot < 3
  {
    if slot == 0 then x.slots[1] + SLOT * x.slots[2] else if slot == 1 then x.slots[2] else 0
  }

  lemma CloseAround(x: Bundle, slot: nat)
    requires BundleOk(x) && slot < 3
    ensures Close(x) == Below(x, slot) + Weight(slot) * (x.slots[slot] + SLOT * Above(x, slot))
    ensures Below(x, slot) < Weight(slot)
  {
  }

  /** Six bytes from the byte where a slot begins reach beyond its end, by `c` times its own range. */
  lemma Layout(slot: nat, k: nat) returns (c: nat)
    requires slot < 3 && k == 5 + 41 * slot
    ensures Weight(slot) == Pow256(k / 8) * Pow2(k % 8) && k / 8 + 6 <= 16
    ensures Pow256(6) == Pow2(k % 8) * (SLOT * c)
  {
    SixteenBytes();
    assert Pow256(0) == 1 && Pow2(5) == 32 && Pow2(6) == 64 && Pow2(7) == 128;
    c := if slot == 0 then 4 else if slot == 1 then 2 else 1;
  }

  /** The window shifted right by its spare bits begins with the slot. */
  lemma Shifted(low: nat, base: nat, j: nat, below: nat, p: nat, v: nat)
    requires base >= 1 && p >= 1 && low < base && below < base * p
    requires low + base * j == below + base * p * v
    ensures j / p == v
  {
    var t, l := below / base, below % base;
    assert below == t * base + l;
    QuotientBelow(below, base, p);
    assert base * p * v == base * (p * v);
    assert low + base * j == l + base * (t + p * v);
    DivModIs(low + base * j, base, j, low);
    DivModIs(l + base * (t + p * v), base, t + p * v, l);
    DivModIs(j, p, v, t);
  }

  /** Writing another instruction back into the window changes the bundle by just that instruction. */
  lemma Window(low: nat, base: nat, i: nat, top: nat, high: nat, below: nat, p: nat, v: nat, above: nat, c: nat)
    returns (e: nat)
    requires base >= 1 && p >= 1 && low < base && below < base * p && v < SLOT
    requires top == p * (SLOT * c) && i < top
    requires low + base * (i + top * high) == below + base * p * (v + SLOT * above)
    ensures i / p == v + SLOT * e && e < c
  {
    Shifted(low, base, i + top * high, below, p, v + SLOT * above);
    Products(p, c, high);
    AddMultiple(i, p, SLOT * (c * high));
    QuotientBelow(i, p, SLOT * c);
    e := SlotOf(i / p, v, above, c * high, c);
  }

  lemma AddMultiple(i: nat, p: nat, k: nat)
    requires p >= 1
    ensures (i + p * k) / p == i / p + k
  {
    var q, r := i / p, i % p;
    assert i + p * k == (q + k) * p + r;
    DivModIs(i + p * k, p, q + k, r);
  }

  lemma Products(p: nat, c: nat, high: nat)
    ensures p * (SLOT * c) * high == p * (SLOT * (c * high))
  {
  }

  lemma SlotOf(q: nat, v: nat, above: nat, m: nat, c: nat) returns (e: nat)
    requires q + SLOT * m == v + SLOT * above && v < SLOT && q < SLOT * c
    ensures q == v + SLOT * e && e < c
  {
    e := q / SLOT;
    DivModIs(v + SLOT * above, SLOT, above, v);
    DivModIs(q + SLOT * m, SLOT, e + m, q % SLOT);
  }

  method WriteSix(bytes: array<byte>, offset: nat, six: seq<byte>)
    requires offset + 6 <= bytes.Length && |six| == 6
    modifies bytes
    ensures bytes[..] == old(bytes[..offset]) + six + old(bytes[offset + 6..])
  {
    for i := 0 to 6
      invariant bytes[..] == old(bytes[..offset]) + six[..i] + old(bytes[offset + i..])
    {
      bytes[offset + i] := six[i];
    }
  }

  lemma Parts(a: seq<byte>, b: seq<byte>, c: seq<byte>)
    ensures LittleEndian(a + b + c)
         == LittleEndian(a) + Pow256(|a|) * (LittleEndian(b) + Pow256(|b|) * LittleEndian(c))
  {
    LittleSplit(a, b + c);
    LittleSplit(b, c);
    assert a + b + c == a + (b + c);
  }

  /** Replacing `v` by `w` in the window replaces it in the bundle. */
  lemma Replaced(low: nat, base: nat, r: nat, p: nat, q: nat, tail: nat, below: nat, v: nat, w: nat, rest: nat)
    requires low + base * (Joined(r, p, v + q) + tail) == below + base * p * (v + rest)
    ensures low + base * (Joined(r, p, w + q) + tail) == below + base * p * (w + rest)
  {
    assert base * (r + p * (w + q) + tail) == base * (r + p * (v + q) + tail) + base * p * w - base * p * v;
    assert base * p * (w + rest) == base * p * (v + rest) + base * p * w - base * p * v;
  }

  lemma Within(r: nat, p: nat, q: nat, limit: nat)
    requires r < p && q < limit
    ensures Joined(r, p, q) < p * limit
  {
    MulAtMost(q + 1, limit, p);
  }

  /** The bundle with one instruction rewritten. */
  function Rewrite(position: u32, x: Bundle, slot: nat): (y: Bundle)
    requires BundleOk(x) && slot < 3
    ensures BundleOk(y) && Below(y, slot) == Below(x, slot) && Above(y, slot) == Above(x, slot)
    ensures y.template == x.template && y.slots[slot] == Rewritten(position, x.slots[slot], false)
    ensures forall i | 0 <= i < 3 && i != slot :: y.slots[i] == x.slots[i]
  {
    hide Rewritten;
    RewrittenTop(position, x.slots[slot], 0, false);
    x.(slots := x.slots[slot := Rewritten(position, x.slots[slot], false)])
  }

  /** What the code writes back for the number it reads, whose `p` spare values come first. */
  function Written(position: u32, i: nat, p: nat): nat
    requires p >= 1
  {
    Joined(i % p, p, Rewritten(position, i / p, false))
  }

  function Joined(r: nat, p: nat, q: nat): nat {
    MulAtMost(0, q, p);
    r + p * q
  }

  lemma WrittenIs(position: u32, i: nat, p: nat, v: nat, e: nat, c: nat)
    requires p >= 1 && v < SLOT && i / p == v + SLOT * e && e < c
    ensures IsBranch(i / p) <==> IsBranch(v)
    ensures i == Joined(i % p, p, v + SLOT * e)
    ensures Written(position, i, p) == Joined(i % p, p, Rewritten(position, v, false) + SLOT * e) < p * (SLOT * c)
  {
    BranchTop(v, e);
    RewrittenTop(position, v, e, false);
    Whole(i, p);
    Within(i % p, p, Rewritten(position, v, false) + SLOT * e, SLOT * c);
    hide Rewritten, IsBranch, Joined;
  }

  lemma Whole(i: nat, p: nat)
    requires p >= 1
    ensures i == Joined(i % p, p, i / p) && i % p < p
  {
  }

  /** Writing back into the window of six bytes rewrites one instruction of the bundle. */
  lemma WindowStep(position: u32, before: seq<byte>, window: seq<byte>, after: seq<byte>, x: Bundle, slot: nat,
                   p: nat, c: nat)
    requires slot < 3 && |window| == 6 && BundleOk(x) && LittleEndian(before + window + after) == Close(x)
    requires p >= 1 && Weight(slot) == Pow256(|before|) * p && Pow256(6) == p * (SLOT * c)
    ensures IsBranch(LittleEndian(window) / p) <==> IsBranch(x.slots[slot])
    ensures LittleEndian(before + LittleBytes(Written(position, LittleEndian(window), p), 6) + after)
         == Close(Rewrite(position, x, slot))
  {
    hide Rewritten, IsBranch, Close, Below, Above, Weight, LittleBytes, LittleEndian, Pow256, Rewrite, Written, Joined;
    var low, base, i := LittleEndian(before), Pow256(|before|), LittleEndian(window);
    var top, high := Pow256(6), LittleEndian(after);
    var v, y := x.slots[slot], Rewrite(position, x, slot);
    LittleBound(before);
    LittleBound(window);
    Parts(before, window, after);
    CloseAround(x, slot);
    var e := Window(low, base, i, top, high, Below(x, slot), p, v, Above(x, slot), c);
    WrittenIs(position, i, p, v, e, c);
    LittleOfBytes(Written(position, i, p), 6);
    Parts(before, LittleBytes(Written(position, i, p), 6), after);
    CloseAround(y, slot);
    Replaced(low, base, i % p, p, SLOT * e, top * high, Below(x, slot), v, y.slots[slot], SLOT * Above(x, slot));
  }

  // ---- in place ----

  /** Bytes outside the bundle at `offset` are as they were. */
  twostate predicate OnlyBundle(bytes: array<byte>, offset: nat)
    reads bytes
  {
    && offset + 16 <= bytes.Length
    && bytes[..offset] == old(bytes[..offset]) && bytes[offset + 16..] == old(bytes[offset + 16..])
  }

  /** One marked slot: a window of six bytes is read and, for a branch, written back. */
  method DecodeSlot(bytes: array<byte>, offset: nat, position: u32, slot: nat, bitPosition: nat, ghost x: Bundle)
    requires offset + 16 <= bytes.Length && slot < 3 && bitPosition == 5 + 41 * slot
    requires BundleOk(x) && LittleEndian(bytes[offset..offset + 16]) == Close(x)
    modifies bytes
    ensures OnlyBundle(bytes, offset)
    ensures LittleEndian(bytes[offset..offset + 16]) == Close(Rewrite(position, x, slot))
  {
    hide Rewritten, IsBranch, Close, Weight, LittleBytes, LittleEndian, Pow2, Pow256, Rewrite, Joined;
    ghost var c := Layout(slot, bitPosition);
    var at, power := offset + bitPosition / 8, Pow2(bitPosition % 8);
    ghost var before, window, after := bytes[offset..at], bytes[at..at + 6], bytes[at + 6..offset + 16];
    assert bytes[offset..offset + 16] == before + window + after;
    WindowStep(position, before, window, after, x, slot, power, c);
    var instruction := LittleEndian(bytes[at..at + 6]);
    var normalized := instruction / power;
    if IsBranch(normalized) {
      instruction := Joined(instruction % power, power, Rewritten(position, normalized, false));
      var six := LittleBytes(instruction, 6);
      ghost var was := bytes[..];
      WriteSix(bytes, at, six);
      Spliced(was, bytes[..], offset, at, six);
    } else {
      NotRewritten(position, x, slot);
    }
  }

  lemma Spliced(was: seq<byte>, now: seq<byte>, offset: nat, at: nat, six: seq<byte>)
    requires |six| == 6 && offset <= at && at + 6 <= offset + 16 <= |was|
    requires now == was[..at] + six + was[at + 6..]
    ensures now[..offset] == was[..offset] && now[offset + 16..] == was[offset + 16..]
    ensures now[offset..offset + 16] == was[offset..at] + six + was[at + 6..offset + 16]
  {
    assert forall k | 0 <= k < at :: now[k] == was[k];
    assert forall k | at <= k < at + 6 :: now[k] == six[k - at];
    assert forall k | at + 6 <= k < |was| :: now[k] == was[k];
    var t, u := now[offset..offset + 16], was[offset..at] + six + was[at + 6..offset + 16];
    forall k | 0 <= k < 16 ensures t[k] == u[k] {
      assert t[k] == now[offset + k];
    }
  }

  lemma NotRewritten(position: u32, x: Bundle, slot: nat)
    requires BundleOk(x) && slot < 3 && !IsBranch(x.slots[slot])
    ensures Rewrite(position, x, slot) == x
  {
    hide IsBranch;
  }

  lemma SteppedNext(position: u32, x: Bundle, slot: nat)
    requires BundleOk(x) && slot < 3
    ensures Stepped(position, x, 0, false) == x
    ensures var y := Stepped(position, x, slot, false);
            Stepped(position, x, slot + 1, false)
            == if Masked(x.template, slot) then Rewrite(position, y, slot) else y
  {
    hide Rewritten, Masked;
    var y, z := Stepped(position, x, slot, false), Stepped(position, x, slot + 1, false);
    assert forall i | 0 <= i < 3 && i != slot :: z.slots[i] == y.slots[i];
    assert Stepped(position, x, 0, false).slots == x.slots;
    if Masked(x.template, slot) {
      var w := Rewrite(position, y, slot);
      assert y.slots[slot] == x.slots[slot] && z.slots[slot] == w.slots[slot];
      hide Rewrite, Stepped;
      assert forall i | 0 <= i < 3 :: z.slots[i] == w.slots[i];
      assert z.slots == w.slots;
    } else {
      assert z.slots == y.slots;
    }
  }

  method DecodeBundle(bytes: array<byte>, offset: nat, position: u32)
    requires offset + 16 <= bytes.Length
    modifies bytes
    ensures OnlyBundle(bytes, offset)
    ensures bytes[offset..offset + 16] == BundleBytes(position, old(bytes[offset..offset + 16]), false)
  {
    hide Rewritten, IsBranch, Close, Open, LittleBytes, LittleEndian, Pow256, Rewrite, Stepped, Masked;
    ghost var s := bytes[offset..offset + 16];
    LittleBound(s);
    CloseOpen(LittleEndian(s));
    ghost var x := Open(LittleEndian(s));
    TemplateOf(s);
    SteppedNext(position, x, 0);
    var template: nat := bytes[offset] % 32;
    var bitPosition: nat := 5;
    for slot := 0 to 3
      invariant bitPosition == 5 + 41 * slot && OnlyBundle(bytes, offset)
      invariant LittleEndian(bytes[offset..offset + 16]) == Close(Stepped(position, x, slot, false))
    {
      SteppedNext(position, x, slot);
      if Masked(template, slot) {
        DecodeSlot(bytes, offset, position, slot, bitPosition, Stepped(position, x, slot, false));
      }
      bitPosition := bitPosition + 41;
    }
    LittleInverse(bytes[offset..offset + 16]);
  }

  lemma TemplateOf(s: seq<byte>)
    requires |s| == 16
    ensures LittleEndian(s) < Pow256(16) && Open(LittleEndian(s)).template == s[0] % 32
  {
    LittleBound(s);
    hide Pow256;
    var rest := LittleEndian(s[1..]);
    assert LittleEndian(s) == s[0] as int + 0x100 * rest;
    hide LittleEndian;
    LowFive(s[0], rest);
  }

  lemma LowFive(a: nat, rest: nat)
    ensures (a + 0x100 * rest) % 32 == a % 32
  {
  }

  /** What a scan stopped at `offset` still has to do. */
  ghost predicate Scanned(start: u32, before: seq<byte>, now: seq<byte>, offset: nat)
    requires offset <= |now|
  {
    Scan(start, 0, before, false) == now[..offset] + Scan(start, offset, now[offset..], false)
  }

  lemma ScannedNext(start: u32, before: seq<byte>, now: seq<byte>, offset: nat, next: seq<byte>)
    requires offset + 16 <= |now| == |next| && Scanned(start, before, now, offset)
    requires next[..offset] == now[..offset] && next[offset + 16..] == now[offset + 16..]
    requires next[offset..offset + 16] == BundleBytes(BundlePosition(start, offset), now[offset..offset + 16], false)
    ensures Scanned(start, before, next, offset + 16)
  {
    hide Scan, BundleBytes, BundlePosition;
    var rest, p := now[offset..], BundlePosition(start, offset);
    ScanBundle(start, offset, rest, false);
    assert rest[..16] == now[offset..offset + 16] && rest[16..] == now[offset + 16..];
    var head, tail := BundleBytes(p, rest[..16], false), Scan(start, offset + 16, rest[16..], false);
    assert next[..offset + 16] == now[..offset] + head;
    assert now[..offset] + (head + tail) == now[..offset] + head + tail;
  }

  /** `decode_ia64`. */
  method DecodeIa64(bytes: array<byte>, properties: seq<byte>) returns (r: Result<()>)
    modifies bytes
    ensures r.Ok? <==> F.StartingPosition(properties).Ok?
    ensures r.Ok? ==> bytes[..] == Scan(F.StartingPosition(properties).value, 0, old(bytes[..]), false)
  {
    var start := F.StartingPosition(properties);
    if start.Err? {
      return Err(start.error);
    }
    hide Scan, BundleBytes, BundlePosition, Scanned;
    var processBytes := WholeBundles(bytes.Length);
    var offset: nat := 0;
    ScanStarts(start.value, bytes[..]);
    while offset < processBytes
      invariant offset % 16 == 0 && offset <= processBytes
      invariant Scanned(start.value, old(bytes[..]), bytes[..], offset)
    {
      ghost var now := bytes[..];
      NextBundle(offset, processBytes);
      assert now[offset..offset + 16] == bytes[offset..offset + 16];
      DecodeBundle(bytes, offset, BundlePosition(start.value, offset));
      ScannedNext(start.value, old(bytes[..]), now, offset, bytes[..]);
      offset := offset + 16;
    }
    ScanStops(start.value, old(bytes[..]), bytes[..], offset);
    r := Ok(());
  }

  /** The bytes of whole bundles. */
  function WholeBundles(length: nat): (n: nat)
    ensures n <= length < n + 16 && n % 16 == 0
  {
    length / 16 * 16
  }

  lemma NextBundle(offset: nat, end: nat)
    requires offset % 16 == 0 && end % 16 == 0 && offset < end
    ensures offset + 16 <= end && (offset + 16) % 16 == 0
  {
  }

  lemma ScanStarts(start: u32, s: seq<byte>)
    ensures Scanned(start, s, s, 0)
  {
    assert s[..0] + Scan(start, 0, s, false) == Scan(start, 0, s, false) && s[0..] == s;
  }

  lemma ScanStops(start: u32, before: seq<byte>, now: seq<byte>, offset: nat)
    requires offset <= |now| < offset + 16 && Scanned(start, before, now, offset)
    ensures Scan(start, 0, before, false) == now
  {
    assert now[..offset] + now[offset..] == now;
  }
}
