/** What the branch filters are for: a rewritten branch holds the address it goes to, wherever it stands. */
module BranchTargets {
  import opened Prelude
  import opened BranchFilters
  import Thumb = ThumbFilter
  import Ia64 = Ia64Filter

  /** Adding a step is addition modulo the size of the field; subtracting it is what undoes that. */
  lemma MovedIs(x: nat, step: nat, modulus: nat)
    requires x < modulus
    ensures Moved(x, step, modulus, true) == (x + step) % modulus
  {
    var s, q := step % modulus, step / modulus;
    assert x + step == q * modulus + (x + s);
    if x + s < modulus {
      DivModIs(x + step, modulus, q, x + s);
    } else {
      assert q * modulus + modulus == (q + 1) * modulus;
      DivModIs(x + step, modulus, q + 1, x + s - modulus);
    }
  }

  lemma Scaled(x: nat, k: nat, m: nat)
    requires m >= 1 && k >= 1
    ensures k * m >= 1 && k * x % (k * m) == k * (x % m)
  {
    var q, r := x / m, x % m;
    assert x == q * m + r;
    assert k * x == q * (k * m) + k * r;
    assert k * r < k * m;
    DivModIs(k * x, k * m, q, k * r);
  }

  // ---- what the processors do ----

  // The displacement of a branch counts from the address of the instruction (ARM: from two instructions
  // further on), in units of an instruction; addresses wrap around at the size of the field.

  function ArmTarget(address: nat, w: u32): nat {
    (address + 8 + 4 * (w % 0x100_0000)) % 0x400_0000
  }

  function PpcTarget(address: nat, w: u32): nat {
    (address + w % 0x400_0000 / 4 * 4) % 0x400_0000
  }

  function SparcGoal(address: nat, w: u32): nat {
    (address + 4 * (w % 0x80_0000)) % 0x200_0000
  }

  function Arm64Target(address: nat, w: u32): nat {
    (address + 4 * (w % 0x400_0000)) % 0x1000_0000
  }

  /** The page ADRP computes, of the 2^18 pages whose difference the filter can hold: the low two bits of the
      displacement are in bits 29 and 30, the high nineteen in bits 5 to 23. */
  function Arm64Page(address: nat, w: u32): nat {
    (address / 0x1000 + PageDisplacement(w)) % 0x4_0000
  }

  function PageDisplacement(w: u32): nat {
    4 * (w % 0x100_0000 / 0x20) + w / 0x2000_0000 % 4
  }

  // ---- rewritten words hold absolute targets ----

  /** The address of the `k`-th word of a buffer. */
  function Address(start: u32, k: nat): u32 {
    (start + 4 * k) % WORDS
  }

  /** Adding in units of four bytes. */
  lemma FieldSum(x: nat, address: nat, m: nat)
    requires address % 4 == 0 && m >= 1
    ensures 4 * ((x + address / 4) % m) == (address + 4 * x) % (4 * m)
  {
    Scaled(x + address / 4, 4, m);
    assert 4 * (x + address / 4) == address + 4 * x;
  }

  lemma TwoAhead(address: u32)
    requires address % 4 == 0
    ensures Next(Next(address)) == (address + 8) % WORDS && Next(Next(address)) % 4 == 0
  {
  }

  lemma ArmAbsolute(address: u32, w: u32)
    requires address % 4 == 0 && IsArm(w)
    ensures var v := ArmStep(Next(Next(address)), w, true);
            IsArm(v) && 4 * (v % 0x100_0000) == ArmTarget(address, w)
  {
    var ip, x := Next(Next(address)), w % 0x100_0000;
    TwoAhead(address);
    hide Next;
    MovedIs(x, ip / 4, 0x100_0000);
    hide Moved;
    FieldSum(x, ip, 0x100_0000);
    Wraps(address + 8, 4 * x, 0x400_0000, 0x40);
  }

  /** Wrapping at 2^32 first makes no difference to a smaller power of two. */
  lemma Wraps(a: nat, x: nat, m: nat, k: nat)
    requires m * k == WORDS && m >= 1
    ensures (a % WORDS + x) % m == (a + x) % m
  {
    var q := a / WORDS;
    assert a == q * WORDS + a % WORDS;
    assert q * WORDS == (q * k) * m;
    var y := a % WORDS + x;
    assert a + x == (q * k) * m + y;
    assert y == y / m * m + y % m;
    assert a + x == (q * k + y / m) * m + y % m;
    DivModIs(a + x, m, q * k + y / m, y % m);
  }

  lemma PpcAbsolute(address: u32, w: u32)
    requires address % 4 == 0 && IsPpc(w)
    ensures var v := PpcStep(address, w, true);
            IsPpc(v) && v % 0x400_0000 == PpcTarget(address, w) + 1
  {
    var x := w % 0x400_0000;
    MovedIs(x, address, 0x400_0000);
    hide Moved;
    assert x % 4 == 1;
    LinkBit(x / 4, address);
    assert x / 4 * 4 == 4 * (x / 4) && x == 4 * (x / 4) + 1;
  }

  lemma LinkBit(x: nat, address: nat)
    requires address % 4 == 0
    ensures (4 * x + 1 + address) % 0x400_0000 == (address + 4 * x) % 0x400_0000 + 1
    ensures (address + 4 * x) % 0x400_0000 % 4 == 0
  {
    FieldSum(x, address, 0x100_0000);
    var y := address + 4 * x;
    DivModIs(y + 1, 0x400_0000, y / 0x400_0000, y % 0x400_0000 + 1);
  }

  lemma SparcAbsolute(address: u32, w: u32)
    requires address % 4 == 0 && IsSparc(w)
    ensures var v := SparcStep(address, w, true);
            IsSparc(v) && 4 * (v % 0x80_0000) == SparcGoal(address, w)
  {
    var x := w % 0x80_0000;
    MovedIs(4 * x, address, 0x200_0000);
    Scaled(x + address / 4, 4, 0x80_0000);
    assert 4 * (x + address / 4) == 4 * x + address;
    var y := (4 * x + address) % 0x200_0000;
    SparcWordInverse(y / 4, w);
  }

  lemma Arm64Absolute(address: u32, w: u32)
    requires address % 4 == 0 && IsCall(w)
    ensures var v := Arm64Step(address, w, true);
            IsCall(v) && 4 * (v % 0x400_0000) == Arm64Target(address, w)
  {
    var x := w % 0x400_0000;
    MovedIs(x, address / 4, 0x400_0000);
    Scaled(x + address / 4, 4, 0x400_0000);
    assert 4 * (x + address / 4) == 4 * x + address;
  }

  /** ADRP: the page it computes, up to the bias of the window of displacements the filter accepts. */
  lemma Arm64AbsolutePage(address: u32, w: u32)
    requires IsPage(w)
    ensures var v := Arm64Step(address, w, true);
            && IsPage(v) && v % 0x20 == w % 0x20
            && Arm64Page(0, v) == Arm64Page(address, w)
  {
    var p, d := PageNumber(w), address / 0x1000;
    WordOfPage(w);
    PageStep(address, w);
    MovedIs(p, d, 0x4_0000);
    var q := Moved(p, d, 0x4_0000, true);
    hide Moved, Arm64Step;
    PageOfWord(q, Register(w));
    PageBits(w);
    PageBits(PageWord(q, Register(w)));
    hide PageWord, PageNumber, IsPage, Register, PageOffset;
    BiasMoves(PageDisplacement(w), p, d, PageDisplacement(PageWord(q, Register(w))));
  }

  lemma PageStep(address: u32, w: u32)
    requires IsPage(w) && !IsCall(w)
    ensures Arm64Step(address, w, true)
         == PageWord(Moved(PageNumber(w), address / 0x1000, 0x4_0000, true), Register(w))
  {
  }

  /** The page number the filter works on is the displacement of ADRP plus a bias; the register is in the low bits. */
  lemma PageBits(w: u32)
    requires IsPage(w)
    ensures (PageDisplacement(w) + 0x2_0000) % 0x4_0000 == PageNumber(w)
    ensures Register(w) == w % 0x20
  {
    var top, body := w / 0x100_0000, w % 0x100_0000;
    var lo := (top - 0x90) / 0x20;
    assert w / 0x2000_0000 == top / 0x20 && top / 0x20 % 4 == lo;
    assert w % 0x20 == body % 0x20;
    BodyBits(body);
    hide PageOffset;
    assert PageNumber(w) == PageOffset(body) / 0x20 * 4 + lo;
  }

  lemma BodyBits(body: nat)
    requires body < 0x100_0000
    ensures PageOffset(body) / 0x20 == body / 0x20 + if body < 0xf0_0000 then 0x8000 else -0x7_8000
    ensures PageOffset(body) % 0x20 == body % 0x20
  {
  }

  lemma BiasMoves(x: nat, p: nat, d: nat, y: nat)
    requires (x + 0x2_0000) % 0x4_0000 == p && (y + 0x2_0000) % 0x4_0000 == (p + d) % 0x4_0000
    ensures y % 0x4_0000 == (d + x) % 0x4_0000
  {
  }

  lemma ThumbAbsolute(start: u32, offset: nat, t: nat)
    requires t < 0x40_0000 && (start + offset) % 2 == 0
    ensures 2 * Thumb.Step(Thumb.PairPosition(start, offset), t, true) == (start + offset + 4 + 2 * t) % 0x80_0000
  {
    var position := Thumb.PairPosition(start, offset);
    Thumb.StepIs(position, t, true);
    MovedIs(t, position / 2, 0x40_0000);
    hide Thumb.Step, Moved;
    Scaled(t + position / 2, 2, 0x40_0000);
    assert position % 2 == 0 && 2 * (t + position / 2) == position + 2 * t;
    Wraps(start + offset + 4, 2 * t, 0x80_0000, 0x200);
  }

  lemma Ia64Absolute(start: u32, offset: nat, t: nat)
    requires t < 0x20_0000 && (start + offset) % 16 == 0
    ensures 16 * Ia64.Step(Ia64.BundlePosition(start, offset), t, true) == (start + offset + 16 * t) % 0x200_0000
  {
    var position := Ia64.BundlePosition(start, offset);
    Ia64.StepIs(position, t, true);
    MovedIs(t, position / 16, 0x20_0000);
    hide Ia64.Step, Moved;
    Scaled(t + position / 16, 16, 0x20_0000);
    SixteenWraps(start + offset);
    assert 16 * (t + position / 16) == position + 16 * t;
    Wraps(start + offset, 16 * t, 0x200_0000, 0x80);
  }

  lemma SixteenWraps(x: nat)
    requires x % 16 == 0
    ensures x % WORDS % 16 == 0
  {
  }

  /** The execution units of the three slots of each template; a dash stands for a reserved template. */
  const UNITS: seq<string> := [
    "MII", "MII", "MII", "MII", "MLX", "MLX", "---", "---", "MMI", "MMI", "MMI", "MMI", "MFI", "MFI", "MMF", "MMF",
    "MIB", "MIB", "MBB", "MBB", "---", "---", "BBB", "BBB", "MMB", "MMB", "---", "---", "MFB", "MFB", "---", "---"
  ]

  /** The slots the filter looks at are those of branch units. */
  lemma BranchSlots(template: nat, slot: nat)
    requires template < 32 && slot < 3
    ensures |UNITS| == 32 && |UNITS[template]| == 3
    ensures Ia64.Masked(template, slot) <==> UNITS[template][slot] == 'B'
  {
  }

  /** A branch instruction by the numbers of its bits: opcode 5 in bits 37 to 40, type 0 in bits 9 to 11, and its target
      in bits 13 to 32 with the top bit in bit 36. */
  lemma Ia64Branch(n: nat)
    ensures Ia64.IsBranch(n) <==> n / 0x20_0000_0000 % 16 == 5 && n / 0x200 % 8 == 0
    ensures Ia64.Target(n) == n / 0x2000 % 0x10_0000 + 0x10_0000 * (n / 0x10_0000_0000 % 2)
  {
    LowField(n);
    HighFields(n);
  }

  lemma LowField(n: nat)
    ensures n % 0x2000 / 0x200 % 8 == n / 0x200 % 8
  {
    var q, low := n / 0x2000, n % 0x2000;
    var a, b := low / 0x200, low % 0x200;
    assert n == 0x200 * (16 * q + a) + b;
    DivModIs(n, 0x200, 16 * q + a, b);
    DivModIs(16 * q + a, 8, 2 * q + a / 8, a % 8);
  }

  lemma HighFields(n: nat)
    ensures n / 0x2000 / 0x10_0000 / 8 % 2 == n / 0x10_0000_0000 % 2
    ensures n / 0x2000 / 0x10_0000 / 8 / 2 == n / 0x20_0000_0000
  {
    var q, a := n / 0x2000, n % 0x2000;
    var r, b := q / 0x10_0000, q % 0x10_0000;
    var t, c := r / 8, r % 8;
    var u, d := t / 2, t % 2;
    assert n == 0x20_0000_0000 * u + 0x10_0000_0000 * d + 0x2_0000_0000 * c + 0x2000 * b + a;
    DivModIs(n, 0x10_0000_0000, 2 * u + d, 0x2_0000_0000 * c + 0x2000 * b + a);
    DivModIs(n, 0x20_0000_0000, u, 0x10_0000_0000 * d + 0x2_0000_0000 * c + 0x2000 * b + a);
  }

  // ---- which words are branches: the encodings of the instruction sets ----

  /** BL on ARM: 24 bits of displacement in words. */
  lemma ArmWords(w: u32)
    ensures IsArm(w) <==> exists d: int :: -0x80_0000 <= d < 0x80_0000 && w == 0xeb00_0000 + d % 0x100_0000
  {
    if IsArm(w) {
      var x := w % 0x100_0000;
      var d := if x < 0x80_0000 then x else x - 0x100_0000;
      assert d % 0x100_0000 == x;
    }
  }

  /** BL on PowerPC: 24 bits of displacement in words, relative, with the link bit. */
  lemma PpcWords(w: u32)
    ensures IsPpc(w) <==> exists d: int :: -0x80_0000 <= d < 0x80_0000 && w == 0x4800_0001 + 4 * (d % 0x100_0000)
  {
    if IsPpc(w) {
      var x := w % 0x400_0000 / 4;
      var d := if x < 0x80_0000 then x else x - 0x100_0000;
      assert d % 0x100_0000 == x;
    }
  }

  /** CALL on SPARC has 30 bits of displacement; the filter takes those that fit 23 bits with their sign. */
  lemma SparcWords(w: u32)
    ensures IsSparc(w) <==> exists d: int :: -0x40_0000 <= d < 0x40_0000 && w == 0x4000_0000 + d % 0x4000_0000
  {
    if IsSparc(w) {
      var x := w % 0x4000_0000;
      var d := if x < 0x40_0000 then x else x - 0x4000_0000;
      assert d % 0x4000_0000 == x;
    }
  }

  /** BL on ARM64: 26 bits of displacement in words. */
  lemma CallWords(w: u32)
    ensures IsCall(w) <==> exists d: int :: -0x200_0000 <= d < 0x200_0000 && w == 0x9400_0000 + d % 0x400_0000
  {
    if IsCall(w) {
      var x := w % 0x400_0000;
      var d := if x < 0x200_0000 then x else x - 0x400_0000;
      assert d % 0x400_0000 == x;
    }
  }

  /** ADRP on ARM64 with a displacement of `d` pages: its two low bits at the top, the other nineteen in the middle. */
  function Adrp(d: int, register: nat): nat
    requires register < 0x20
  {
    0x9000_0000 + d % 4 * 0x2000_0000 + d / 4 % 0x8_0000 * 0x20 + register
  }

  /** The filter takes those whose displacement fits 18 bits with its sign. */
  lemma PageWords(w: u32)
    ensures IsPage(w) <==>
            exists d: int, register: nat :: -0x2_0000 <= d < 0x2_0000 && register < 0x20 && w == Adrp(d, register)
  {
    if IsPage(w) {
      var top, body := w / 0x100_0000, w % 0x100_0000;
      var high := if body < 0x10_0000 then body / 0x20 else body / 0x20 - 0x8_0000;
      var d := 4 * high + (top - 0x90) / 0x20;
      assert high % 0x8_0000 == body / 0x20;
      assert w == Adrp(d, body % 0x20);
    }
    forall d: int, register: nat | -0x2_0000 <= d < 0x2_0000 && register < 0x20 && w == Adrp(d, register)
      ensures IsPage(w)
    {
      AdrpIsPage(d, register);
    }
  }

  lemma AdrpIsPage(d: int, register: nat)
    requires -0x2_0000 <= d < 0x2_0000 && register < 0x20
    ensures Adrp(d, register) < WORDS && IsPage(Adrp(d, register))
  {
    var low, middle := d % 4, d / 4 % 0x8_0000;
    var w := Adrp(d, register);
    assert middle < 0x8000 || 0x7_8000 <= middle < 0x8_0000;
    DivModIs(w, 0x100_0000, 0x90 + low * 0x20, middle * 0x20 + register);
  }

  /** BL on Thumb is two halfwords with 11 bits of the displacement each, the high ones first. */
  lemma ThumbPairs(s: seq<byte>)
    requires |s| >= 4
    ensures var first, second := s[0] as int + 0x100 * s[1] as int, s[2] as int + 0x100 * s[3] as int;
            && (Thumb.IsBranch(s) <==> 0xf000 <= first < 0xf800 && 0xf800 <= second < 0x1_0000)
            && Thumb.Target(s) == first % 0x800 * 0x800 + second % 0x800
  {
    Halfword(s[0], s[1]);
    Halfword(s[2], s[3]);
  }

  lemma Halfword(low: byte, high: byte)
    ensures var h := low as int + 0x100 * high as int;
            && h % 0x800 == low as int + 0x100 * (high % 8)
            && (high / 8 == 0x1e <==> 0xf000 <= h < 0xf800) && (high / 8 == 0x1f <==> 0xf800 <= h < 0x1_0000)
  {
    DivModIs(low as int + 0x100 * high as int, 0x800, high / 8, low as int + 0x100 * (high % 8));
  }

  // ---- whole buffers ----

  /** Word `k` of a scanned buffer is the word `k` of the buffer, rewritten for its own address. */
  lemma {:induction false} ScanAt(f: Rewriter, ip: u32, s: seq<byte>, big: bool, back: bool, k: nat)
    requires 4 * k + 4 <= |s|
    ensures Scan(f, ip, s, big, back)[4 * k..4 * k + 4]
         == Write(f(Address(ip, k), Read(s[4 * k..4 * k + 4], big), back), big)
    decreases k
  {
    hide Read, Write, Scan, Next, Address;
    ScanFirst(f, ip, s, big, back);
    var tail, head := Scan(f, Next(ip), s[4..], big, back), Write(f(ip, Read(s[..4], big), back), big);
    if k > 0 {
      ScanAt(f, Next(ip), s[4..], big, back, k - 1);
      WordBehind(head, tail, s, k);
      NextAddress(ip, k);
    } else {
      NoAddress(ip);
      assert (head + tail)[..4] == head;
    }
  }

  lemma WordBehind(head: seq<byte>, tail: seq<byte>, s: seq<byte>, k: nat)
    requires |head| == 4 && k > 0 && 4 * k <= |tail| && 4 * k + 4 <= |s|
    ensures (head + tail)[4 * k..4 * k + 4] == tail[4 * (k - 1)..4 * (k - 1) + 4]
    ensures s[4..][4 * (k - 1)..4 * (k - 1) + 4] == s[4 * k..4 * k + 4]
  {
    Behind(head, tail, 4 * k);
    Behind(s[..4], s[4..], 4 * k);
    assert s[..4] + s[4..] == s;
  }

  lemma ScanFirst(f: Rewriter, ip: u32, s: seq<byte>, big: bool, back: bool)
    requires |s| >= 4
    ensures s == s[..4] + s[4..]
    ensures Scan(f, ip, s, big, back)
         == Write(f(ip, Read(s[..4], big), back), big) + Scan(f, Next(ip), s[4..], big, back)
  {
    hide Read, Write;
  }

  lemma NextAddress(ip: u32, k: nat)
    requires k > 0
    ensures Address(Next(ip), k - 1) == Address(ip, k)
  {
  }

  lemma NoAddress(ip: u32)
    ensures Address(ip, 0) == ip
  {
  }

  lemma Behind(head: seq<byte>, tail: seq<byte>, at: nat)
    requires |head| == 4 && 4 <= at <= |tail|
    ensures (head + tail)[at..at + 4] == tail[at - 4..at]
  {
  }

  /** What is left behind the last whole word stays. */
  lemma {:induction false} ScanRest(f: Rewriter, ip: u32, s: seq<byte>, big: bool, back: bool)
    ensures Scan(f, ip, s, big, back)[|s| / 4 * 4..] == s[|s| / 4 * 4..]
    decreases |s|
  {
    hide Read, Write;
    if |s| >= 4 {
      ScanRest(f, Next(ip), s[4..], big, back);
      var n := |s| / 4 * 4;
      var tail := Scan(f, Next(ip), s[4..], big, back);
      var head := Write(f(ip, Read(s[..4], big), back), big);
      assert (head + tail)[n..] == tail[n - 4..] && s[4..][n - 4..] == s[n..];
    }
  }
}
