/** Branch filters over four-byte instructions: PPC, ARM, ARM64 and SPARC. */
module BranchFilters {
  import opened Prelude

  const WORDS: nat := 0x1_0000_0000

  // ---- words and bytes ----

  function FromBig(s: seq<byte>): u32
    requires |s| == 4
  {
    0x100_0000 * s[0] as int + 0x1_0000 * s[1] as int + 0x100 * s[2] as int + s[3] as int
  }

  function ToBig(w: u32): (s: seq<byte>)
    ensures |s| == 4
  {
    var q1 := w / 0x100;
    var q2 := q1 / 0x100;
    [q2 / 0x100, q2 % 0x100, q1 % 0x100, w % 0x100]
  }

  function FromLittle(s: seq<byte>): u32
    requires |s| == 4
  {
    FromBig([s[3], s[2], s[1], s[0]])
  }

  function ToLittle(w: u32): (s: seq<byte>)
    ensures |s| == 4
  {
    var b := ToBig(w);
    [b[3], b[2], b[1], b[0]]
  }

  lemma BigInverse(w: u32)
    ensures FromBig(ToBig(w)) == w
  {
  }

  lemma BigIsInjective(s: seq<byte>)
    requires |s| == 4
    ensures ToBig(FromBig(s)) == s
  {
    var q3: nat := s[0];
    var q2: nat := 0x100 * q3 + s[1] as int;
    var q1: nat := 0x100 * q2 + s[2] as int;
    assert FromBig(s) == 0x100 * q1 + s[3] as int;
    LastDigit(q1, s[3]);
    LastDigit(q2, s[2]);
    LastDigit(q3, s[1]);
  }

  lemma LastDigit(q: nat, r: nat)
    requires r < 0x100
    ensures (0x100 * q + r) / 0x100 == q && (0x100 * q + r) % 0x100 == r
  {
  }

  lemma LittleInverse(w: u32, s: seq<byte>)
    requires |s| == 4
    ensures FromLittle(ToLittle(w)) == w && ToLittle(FromLittle(s)) == s
  {
    BigInverse(w);
    BigIsInjective([s[3], s[2], s[1], s[0]]);
    var b := ToBig(w);
    assert [b[0], b[1], b[2], b[3]] == b;
  }

  // ---- one instruction ----

  // Masks of contiguous bits are written as remainders and quotients by powers
  // of two. `back` replaces the subtraction of the position by an addition.

  /** `x` plus or minus `step`, modulo `modulus`. */
  function Moved(x: nat, step: nat, modulus: nat, back: bool): (y: nat)
    requires x < modulus
    ensures y < modulus
  {
    var s := step % modulus;
    if back then if x + s < modulus then x + s else x + s - modulus
    else if s <= x then x - s else x - s + modulus
  }

  lemma MovedBack(x: nat, step: nat, modulus: nat, back: bool)
    requires x < modulus
    ensures Moved(Moved(x, step, modulus, back), step, modulus, !back) == x
  {
  }

  predicate IsArm(w: u32) {
    w / 0x100_0000 == 0xeb
  }

  function ArmStep(ip: u32, w: u32, back: bool): u32 {
    if IsArm(w) then 0xeb00_0000 + Moved(w % 0x100_0000, ip / 4, 0x100_0000, back) else w
  }

  predicate IsPpc(w: u32) {
    w / 0x400_0000 == 0x12 && w % 4 == 1
  }

  function PpcStep(ip: u32, w: u32, back: bool): u32 {
    if IsPpc(w) then 0x4800_0000 + Moved(w % 0x400_0000, ip, 0x400_0000, back) else w
  }

  predicate IsSparc(w: u32) {
    w / 0x40_0000 == 0x100 || w / 0x40_0000 == 0x1ff
  }

  /** The 23-bit target, whose top bit is spread over the bits above it. */
  function SparcTarget(w: u32): (x: nat)
    ensures x < 0x80_0000
  {
    w % 0x80_0000
  }

  function SparcWord(x: nat): u32
    requires x < 0x80_0000
  {
    if x < 0x40_0000 then 0x4000_0000 + x else 0x7fc0_0000 + x - 0x40_0000
  }

  function SparcStep(ip: u32, w: u32, back: bool): u32 {
    if IsSparc(w) then SparcWord(Moved(4 * SparcTarget(w), ip, 0x200_0000, back) / 4) else w
  }

  predicate IsCall(w: u32) {
    w / 0x400_0000 == 0x25
  }

  /** The page offset of ADRP, relative to the bottom of the window of 2^21 that can be rewritten. */
  function PageOffset(body: nat): (x: nat)
    requires body < 0x100_0000
    ensures x < 0x100_0000
  {
    if body < 0xf0_0000 then body + 0x10_0000 else body - 0xf0_0000
  }

  /** ADRP whose page offset fits 18 bits, so that the result still fits. */
  predicate IsPage(w: u32) {
    w / 0x100_0000 in {0x90, 0xb0, 0xd0, 0xf0} && PageOffset(w % 0x100_0000) < 0x20_0000
  }

  /** The 18-bit page number: sixteen bits from the middle, two from the top of the word. */
  function PageNumber(w: u32): (p: nat)
    requires IsPage(w)
    ensures p < 0x4_0000
  {
    PageOffset(w % 0x100_0000) / 0x20 * 4 + (w / 0x100_0000 - 0x90) / 0x20
  }

  function Register(w: u32): (r: nat)
    ensures r < 0x20
  {
    PageOffset(w % 0x100_0000) % 0x20
  }

  function PageWord(p: nat, register: nat): u32
    requires p < 0x4_0000 && register < 0x20
  {
    var x := p / 4 * 0x20 + register;
    var body := if x < 0x10_0000 then x + 0xf0_0000 else x - 0x10_0000;
    (0x90 + p % 4 * 0x20) * 0x100_0000 + body
  }

  function Arm64Step(ip: u32, w: u32, back: bool): u32 {
    if IsCall(w) then 0x9400_0000 + Moved(w % 0x400_0000, ip / 4, 0x400_0000, back)
    else if IsPage(w) then PageWord(Moved(PageNumber(w), ip / 0x1000, 0x4_0000, back), Register(w))
    else w
  }

  /** ARM: rewriting keeps the opcode byte, so any start will do. */
  lemma ArmInverse(ip: u32, w: u32, back: bool)
    ensures ArmStep(ip, ArmStep(ip, w, back), !back) == w
  {
    hide Moved;
    MovedBack(w % 0x100_0000, ip / 4, 0x100_0000, back);
  }

  lemma Arm64CallInverse(ip: u32, w: u32, back: bool)
    requires IsCall(w)
    ensures Arm64Step(ip, Arm64Step(ip, w, back), !back) == w
  {
    hide Moved;
    MovedBack(w % 0x400_0000, ip / 4, 0x400_0000, back);
  }

  lemma PageOfWord(p: nat, register: nat)
    requires p < 0x4_0000 && register < 0x20
    ensures IsPage(PageWord(p, register)) && !IsCall(PageWord(p, register))
    ensures PageNumber(PageWord(p, register)) == p && Register(PageWord(p, register)) == register
  {
    var x := p / 4 * 0x20 + register;
    var body := if x < 0x10_0000 then x + 0xf0_0000 else x - 0x10_0000;
    TopAndBody(0x90 + p % 4 * 0x20, body);
    assert x / 0x20 == p / 4 && x % 0x20 == register;
  }

  lemma TopAndBody(top: nat, body: nat)
    requires top < 0x100 && body < 0x100_0000
    ensures (top * 0x100_0000 + body) / 0x100_0000 == top && (top * 0x100_0000 + body) % 0x100_0000 == body
    ensures (top * 0x100_0000 + body) / 0x400_0000 == top / 4
  {
  }

  lemma WordOfPage(w: u32)
    requires IsPage(w)
    ensures PageWord(PageNumber(w), Register(w)) == w && !IsCall(w)
  {
    var top, body := w / 0x100_0000, w % 0x100_0000;
    TopAndBody(top, body);
    var x, lo := PageOffset(body), (top - 0x90) / 0x20;
    var p := PageNumber(w);
    assert p == x / 0x20 * 4 + lo;
    assert p / 4 == x / 0x20 && p % 4 == lo;
  }

  lemma Arm64Inverse(ip: u32, w: u32, back: bool)
    ensures Arm64Step(ip, Arm64Step(ip, w, back), !back) == w
  {
    hide Moved, PageWord, PageNumber, IsPage, Register;
    if IsCall(w) {
      Arm64CallInverse(ip, w, back);
    } else if IsPage(w) {
      WordOfPage(w);
      var p := Moved(PageNumber(w), ip / 0x1000, 0x4_0000, back);
      PageOfWord(p, Register(w));
      MovedBack(PageNumber(w), ip / 0x1000, 0x4_0000, back);
    }
  }

  lemma LowBitsStay(x: nat, step: nat, modulus: nat, back: bool)
    requires x < modulus && modulus in {0x400_0000, 0x200_0000} && step % 4 == 0
    ensures Moved(x, step, modulus, back) % 4 == x % 4
  {
    var q := modulus / 4;
    RemainderLow(step, q, modulus);
    var s := step % modulus;
    var j := s / 4;
    if back {
      AddFours(x, if x + s < modulus then j else j - q);
    } else {
      AddFours(x, if s <= x then -j else q - j);
    }
  }

  lemma AddFours(x: nat, k: int)
    ensures (x + 4 * k) % 4 == x % 4
  {
  }

  lemma RemainderLow(step: nat, q: nat, modulus: nat)
    requires modulus == 4 * q && q > 0 && step % 4 == 0
    ensures step % modulus % 4 == 0
  {
    var d := step / modulus;
    assert step == d * modulus + step % modulus;
    assert d * modulus == 4 * (d * q);
  }

  lemma PpcInverse(ip: u32, w: u32, back: bool)
    requires ip % 4 == 0
    ensures PpcStep(ip, PpcStep(ip, w, back), !back) == w
  {
    if IsPpc(w) {
      var x := w % 0x400_0000;
      LowBitsStay(x, ip, 0x400_0000, back);
      MovedBack(x, ip, 0x400_0000, back);
      hide Moved;
      assert x % 4 == 1;
    }
  }

  lemma SparcWordInverse(x: nat, w: u32)
    requires x < 0x80_0000
    ensures IsSparc(SparcWord(x)) && SparcTarget(SparcWord(x)) == x
    ensures IsSparc(w) ==> SparcWord(SparcTarget(w)) == w
  {
  }

  lemma SparcInverse(ip: u32, w: u32, back: bool)
    requires ip % 4 == 0
    ensures SparcStep(ip, SparcStep(ip, w, back), !back) == w
  {
    if IsSparc(w) {
      var x := SparcTarget(w);
      LowBitsStay(4 * x, ip, 0x200_0000, back);
      MovedBack(4 * x, ip, 0x200_0000, back);
      var y := Moved(4 * x, ip, 0x200_0000, back);
      SparcWordInverse(y / 4, w);
      hide Moved, SparcWord, SparcTarget, IsSparc;
      assert 4 * (y / 4) == y;
    }
  }

  // ---- whole buffers ----

  /** One instruction's rewriting: position, word, direction. */
  type Rewriter = (u32, u32, bool) -> u32

  function Next(ip: u32): u32 {
    (ip + 4) % WORDS
  }

  function Read(s: seq<byte>, big: bool): u32
    requires |s| == 4
  {
    if big then FromBig(s) else FromLittle(s)
  }

  function Write(w: u32, big: bool): (s: seq<byte>)
    ensures |s| == 4
  {
    if big then ToBig(w) else ToLittle(w)
  }

  /** Every whole word rewritten in turn; a rest of fewer than four bytes stays. */
  function Scan(f: Rewriter, ip: u32, s: seq<byte>, big: bool, back: bool): (t: seq<byte>)
    ensures |t| == |s|
    decreases |s|
  {
    if |s| < 4 then s
    else Write(f(ip, Read(s[..4], big), back), big) + Scan(f, Next(ip), s[4..], big, back)
  }

  /** The same scan with additions undoes the scan with subtractions, and the other way round. */
  lemma {:induction false} ScanInverse(f: Rewriter, ip: u32, s: seq<byte>, big: bool, back: bool)
    requires forall p: u32, w: u32, b: bool :: p % 4 == ip % 4 ==> f(p, f(p, w, b), !b) == w
    ensures Scan(f, ip, Scan(f, ip, s, big, back), big, !back) == s
    decreases |s|
  {
    if |s| >= 4 {
      var w := Read(s[..4], big);
      var v := f(ip, w, back);
      var t := Scan(f, ip, s, big, back);
      assert t[..4] == Write(v, big) && t[4..] == Scan(f, Next(ip), s[4..], big, back);
      WordInverse(v, s[..4], big);
      WordInverse(w, s[..4], big);
      ScanInverse(f, Next(ip), s[4..], big, back);
      assert s == s[..4] + s[4..];
    }
  }

  lemma WordInverse(w: u32, s: seq<byte>, big: bool)
    requires |s| == 4
    ensures Read(Write(w, big), big) == w && Write(Read(s, big), big) == s
  {
    BigInverse(w);
    BigIsInjective(s);
    LittleInverse(w, s);
  }

  /** ARM and ARM64 are bijections from any starting position. */
  lemma ArmScanInverse(ip: u32, s: seq<byte>, back: bool)
    ensures Scan(ArmStep, ip, Scan(ArmStep, ip, s, false, back), false, !back) == s
    ensures Scan(Arm64Step, ip, Scan(Arm64Step, ip, s, false, back), false, !back) == s
  {
    hide ArmStep, Arm64Step;
    forall p: u32, w: u32, b: bool
      ensures ArmStep(p, ArmStep(p, w, b), !b) == w && Arm64Step(p, Arm64Step(p, w, b), !b) == w
    {
      ArmInverse(p, w, b);
      Arm64Inverse(p, w, b);
    }
    ScanInverse(ArmStep, ip, s, false, back);
    ScanInverse(Arm64Step, ip, s, false, back);
  }

  ghost predicate Undoes(f: Rewriter, ip: u32) {
    forall s: seq<byte>, back: bool :: Scan(f, ip, Scan(f, ip, s, true, back), true, !back) == s
  }

  /** A single word that is not restored. */
  lemma NotUndone(f: Rewriter, ip: u32, w: u32)
    requires f(ip, f(ip, w, false), true) != w
    ensures !Undoes(f, ip)
  {
    var s := Write(w, true);
    var v := f(ip, w, false);
    WordInverse(w, s, true);
    assert s[..4] == s && s[4..] == [];
    assert Scan(f, ip, s, true, false) == Write(v, true);
    WordInverse(v, s, true);
    var t := Write(v, true);
    assert t[..4] == t && t[4..] == [];
    var u := f(ip, v, true);
    WordInverse(u, s, true);
    assert Scan(f, ip, t, true, true) == Write(u, true);
  }

  /** PPC is undone exactly from starting positions that are multiples of four. */
  lemma PpcScanInverse(ip: u32)
    ensures Undoes(PpcStep, ip) <==> ip % 4 == 0
  {
    if ip % 4 == 0 {
      forall p: u32, w: u32, b: bool | p % 4 == ip % 4
        ensures PpcStep(p, PpcStep(p, w, b), !b) == w
      {
        PpcInverse(p, w, b);
      }
      hide PpcStep;
      forall s: seq<byte>, back: bool
        ensures Scan(PpcStep, ip, Scan(PpcStep, ip, s, true, back), true, !back) == s
      {
        ScanInverse(PpcStep, ip, s, true, back);
      }
    } else {
      PpcMisses(ip);
      hide PpcStep;
      NotUndone(PpcStep, ip, 0x4800_0001);
    }
  }

  /** A misaligned position takes the link bit along, so the way back no longer sees a branch. */
  lemma PpcMisses(ip: u32)
    requires ip % 4 != 0
    ensures PpcStep(ip, PpcStep(ip, 0x4800_0001, false), true) != 0x4800_0001
  {
    var v := PpcStep(ip, 0x4800_0001, false);
    assert v % 4 == (1 - ip) % 4;
  }

  /** So is SPARC. */
  lemma SparcScanInverse(ip: u32)
    ensures Undoes(SparcStep, ip) <==> ip % 4 == 0
  {
    if ip % 4 == 0 {
      forall p: u32, w: u32, b: bool | p % 4 == ip % 4
        ensures SparcStep(p, SparcStep(p, w, b), !b) == w
      {
        SparcInverse(p, w, b);
      }
      hide SparcStep;
      forall s: seq<byte>, back: bool
        ensures Scan(SparcStep, ip, Scan(SparcStep, ip, s, true, back), true, !back) == s
      {
        ScanInverse(SparcStep, ip, s, true, back);
      }
    } else {
      SparcMisses(ip);
      hide SparcStep;
      NotUndone(SparcStep, ip, 0x4000_0000);
    }
  }

  lemma SparcMisses(ip: u32)
    requires ip % 4 != 0
    ensures SparcStep(ip, SparcStep(ip, 0x4000_0000, false), true) != 0x4000_0000
  {
    var y := Moved(0, ip, 0x200_0000, false) / 4;
    SparcWordInverse(y, 0x4000_0000);
    var z := Moved(4 * y, ip, 0x200_0000, true) / 4;
    SparcWordInverse(z, 0x4000_0000);
    assert SparcTarget(0x4000_0000) == 0;
    assert z != 0;
  }

  // ---- the scans in place ----

  function StartingPosition(properties: seq<byte>): Result<u32> {
    if properties == [] then Ok(0) else if |properties| != 4 then Err(Format) else Ok(FromLittle(properties))
  }

  /** What a scan stopped at `offset` still has to do. */
  ghost predicate Scanned(f: Rewriter, start: u32, before: seq<byte>, big: bool, ip: u32, now: seq<byte>, offset: nat)
    requires offset <= |now|
  {
    Scan(f, start, before, big, false) == now[..offset] + Scan(f, ip, now[offset..], big, false)
  }

  lemma ScannedNext(f: Rewriter, start: u32, before: seq<byte>, big: bool, ip: u32, now: seq<byte>, offset: nat,
                    next: seq<byte>)
    requires offset + 4 <= |now| && Scanned(f, start, before, big, ip, now, offset)
    requires next == now[..offset] + Write(f(ip, Read(now[offset..offset + 4], big), false), big) + now[offset + 4..]
    ensures Scanned(f, start, before, big, Next(ip), next, offset + 4)
  {
    hide Read, Write, Next;
    assert now[offset..][..4] == now[offset..offset + 4] && now[offset..][4..] == now[offset + 4..];
    var word, rest := Write(f(ip, Read(now[offset..offset + 4], big), false), big), now[offset + 4..];
    assert next[offset + 4..] == rest && next[..offset + 4] == now[..offset] + word;
    var tail := Scan(f, Next(ip), rest, big, false);
    assert now[..offset] + (word + tail) == now[..offset] + word + tail;
  }

  method WriteWord(bytes: array<byte>, offset: nat, word: seq<byte>)
    requires offset + 4 <= bytes.Length && |word| == 4
    modifies bytes
    ensures bytes[..] == old(bytes[..offset]) + word + old(bytes[offset + 4..])
  {
    bytes[offset], bytes[offset + 1], bytes[offset + 2], bytes[offset + 3] := word[0], word[1], word[2], word[3];
  }

  method DecodePpc(bytes: array<byte>, properties: seq<byte>) returns (r: Result<()>)
    modifies bytes
    ensures r.Ok? <==> StartingPosition(properties).Ok?
    ensures r.Ok? ==> bytes[..] == Scan(PpcStep, StartingPosition(properties).value, old(bytes[..]), true, false)
  {
    var start := StartingPosition(properties);
    if start.Err? {
      return Err(start.error);
    }
    hide Scan, Read, Write, Scanned;
    var ip, offset: nat := start.value, 0;
    ScanStarts(PpcStep, ip, bytes[..], true);
    while offset + 4 <= bytes.Length
      invariant offset <= bytes.Length
      invariant Scanned(PpcStep, start.value, old(bytes[..]), true, ip, bytes[..], offset)
    {
      ghost var now := bytes[..];
      var w := Read(bytes[offset..offset + 4], true);
      if IsPpc(w) {
        WriteWord(bytes, offset, Write(PpcStep(ip, w, false), true));
      } else {
        WordInverse(w, bytes[offset..offset + 4], true);
      }
      ScannedNext(PpcStep, start.value, old(bytes[..]), true, ip, now, offset, bytes[..]);
      offset := offset + 4;
      ip := Next(ip);
    }
    ScannedAll(PpcStep, start.value, old(bytes[..]), true, ip, bytes[..], offset);
    r := Ok(());
  }

  method DecodeSparc(bytes: array<byte>, properties: seq<byte>) returns (r: Result<()>)
    modifies bytes
    ensures r.Ok? <==> StartingPosition(properties).Ok?
    ensures r.Ok? ==> bytes[..] == Scan(SparcStep, StartingPosition(properties).value, old(bytes[..]), true, false)
  {
    var start := StartingPosition(properties);
    if start.Err? {
      return Err(start.error);
    }
    hide Scan, Read, Write, Scanned;
    var ip, offset: nat := start.value, 0;
    ScanStarts(SparcStep, ip, bytes[..], true);
    while offset + 4 <= bytes.Length
      invariant offset <= bytes.Length
      invariant Scanned(SparcStep, start.value, old(bytes[..]), true, ip, bytes[..], offset)
    {
      ghost var now := bytes[..];
      var w := Read(bytes[offset..offset + 4], true);
      if IsSparc(w) {
        WriteWord(bytes, offset, Write(SparcStep(ip, w, false), true));
      } else {
        WordInverse(w, bytes[offset..offset + 4], true);
      }
      ScannedNext(SparcStep, start.value, old(bytes[..]), true, ip, now, offset, bytes[..]);
      offset := offset + 4;
      ip := Next(ip);
    }
    ScannedAll(SparcStep, start.value, old(bytes[..]), true, ip, bytes[..], offset);
    r := Ok(());
  }

  method DecodeArm(bytes: array<byte>, properties: seq<byte>) returns (r: Result<()>)
    modifies bytes
    ensures r.Ok? <==> StartingPosition(properties).Ok?
    ensures r.Ok? ==>
              bytes[..] == Scan(ArmStep, Next(Next(StartingPosition(properties).value)), old(bytes[..]), false, false)
  {
    var start := StartingPosition(properties);
    if start.Err? {
      return Err(start.error);
    }
    hide Scan, Read, Write, Next, Scanned;
    ghost var first := Next(Next(start.value));
    var ip, offset: nat := Next(start.value), 0;
    ScanStarts(ArmStep, first, bytes[..], false);
    while offset + 4 <= bytes.Length
      invariant offset <= bytes.Length
      invariant Scanned(ArmStep, first, old(bytes[..]), false, Next(ip), bytes[..], offset)
    {
      ghost var now := bytes[..];
      ip := Next(ip);
      var w := Read(bytes[offset..offset + 4], false);
      if IsArm(w) {
        WriteWord(bytes, offset, Write(ArmStep(ip, w, false), false));
      } else {
        WordInverse(w, bytes[offset..offset + 4], false);
      }
      ScannedNext(ArmStep, first, old(bytes[..]), false, ip, now, offset, bytes[..]);
      offset := offset + 4;
    }
    ScannedAll(ArmStep, first, old(bytes[..]), false, Next(ip), bytes[..], offset);
    r := Ok(());
  }

  method DecodeArm64(bytes: array<byte>, properties: seq<byte>) returns (r: Result<()>)
    modifies bytes
    ensures r.Ok? <==> StartingPosition(properties).Ok?
    ensures r.Ok? ==> bytes[..] == Scan(Arm64Step, StartingPosition(properties).value, old(bytes[..]), false, false)
  {
    var start := StartingPosition(properties);
    if start.Err? {
      return Err(start.error);
    }
    hide Scan, Read, Write, Scanned;
    var ip, offset: nat := start.value, 0;
    ScanStarts(Arm64Step, ip, bytes[..], false);
    while offset + 4 <= bytes.Length
      invariant offset <= bytes.Length
      invariant Scanned(Arm64Step, start.value, old(bytes[..]), false, ip, bytes[..], offset)
    {
      ghost var now := bytes[..];
      var w := Read(bytes[offset..offset + 4], false);
      if IsCall(w) || IsPage(w) {
        WriteWord(bytes, offset, Write(Arm64Step(ip, w, false), false));
      } else {
        WordInverse(w, bytes[offset..offset + 4], false);
      }
      ScannedNext(Arm64Step, start.value, old(bytes[..]), false, ip, now, offset, bytes[..]);
      offset := offset + 4;
      ip := Next(ip);
    }
    ScannedAll(Arm64Step, start.value, old(bytes[..]), false, ip, bytes[..], offset);
    r := Ok(());
  }

  lemma ScanStarts(f: Rewriter, start: u32, now: seq<byte>, big: bool)
    ensures Scanned(f, start, now, big, start, now, 0)
  {
    assert now[..0] + Scan(f, start, now[0..], big, false) == Scan(f, start, now, big, false) by {
      assert now[0..] == now;
    }
  }

  /** With fewer than four bytes left nothing more changes. */
  lemma ScannedAll(f: Rewriter, start: u32, before: seq<byte>, big: bool, ip: u32, now: seq<byte>, offset: nat)
    requires offset <= |now| < offset + 4 && Scanned(f, start, before, big, ip, now, offset)
    ensures Scan(f, start, before, big, false) == now
  {
    ScanEnds(f, ip, now[offset..], big);
    assert now[..offset] + now[offset..] == now;
  }

  lemma ScanEnds(f: Rewriter, ip: u32, rest: seq<byte>, big: bool)
    requires |rest| < 4
    ensures Scan(f, ip, rest, big, false) == rest
  {
  }
}
