/** The ARM Thumb branch filter, whose four-byte pairs may start at any even offset. */
module ThumbFilter {
  import opened Prelude
  import opened F = BranchFilters

  /** A pair of halfwords that encodes a branch with link. */
  predicate IsBranch(s: seq<byte>) {
    |s| >= 4 && s[1] / 8 == 0x1e && s[3] / 8 == 0x1f
  }

  /** The 22-bit target: three and eight bits from each halfword. */
  function Target(s: seq<byte>): (t: nat)
    requires |s| >= 4
    ensures t < 0x40_0000
  {
    s[1] as int % 8 * 0x8_0000 + s[0] as int * 0x800 + s[3] as int % 8 * 0x100 + s[2] as int
  }

  function Pair(t: nat): (s: seq<byte>)
    requires t < 0x40_0000
    ensures |s| == 4 && IsBranch(s)
  {
    var high, low := t / 0x800, t % 0x800;
    [high % 0x100, 0xf0 + high / 0x100, low % 0x100, 0xf8 + low / 0x100]
  }

  lemma PairInverse(t: nat, s: seq<byte>)
    requires t < 0x40_0000
    ensures Target(Pair(t)) == t
    ensures |s| == 4 && IsBranch(s) ==> Pair(Target(s)) == s
  {
    var high, low := t / 0x800, t % 0x800;
    assert high == high / 0x100 * 0x100 + high % 0x100 && low == low / 0x100 * 0x100 + low % 0x100;
    if |s| == 4 && IsBranch(s) {
      var h: nat, l: nat := s[1] as int % 8 * 0x100 + s[0] as int, s[3] as int % 8 * 0x100 + s[2] as int;
      DivModIs(Target(s), 0x800, h, l);
      DivModIs(h, 0x100, s[1] as int % 8, s[0]);
      DivModIs(l, 0x100, s[3] as int % 8, s[2]);
    }
  }

  /** Twice the target minus (or plus) the position, modulo 2^32, halved; only 22 bits of it are stored. */
  function Step(position: u32, t: nat, back: bool): (u: nat)
    requires t < 0x40_0000
    ensures u < 0x40_0000
  {
    Moved(2 * t, position, WORDS, back) / 2 % 0x40_0000
  }

  /** In units of two bytes, with the odd unit of the position carried only when subtracting. */
  lemma StepIs(position: u32, t: nat, back: bool)
    requires t < 0x40_0000
    ensures Step(position, t, back)
         == Moved(t, position / 2 + (if back then 0 else position % 2), 0x40_0000, back)
  {
    var h: nat, e: nat := position / 2, position % 2;
    if back {
      HalfSum(t, h, e);
    } else {
      HalfDifference(t, h, e);
    }
  }

  lemma HalfSum(t: nat, h: nat, e: nat)
    requires t < 0x40_0000 && e < 2 && 2 * h + e < WORDS
    ensures var y := Moved(2 * t, 2 * h + e, WORDS, true);
            y / 2 % 0x40_0000 == Moved(t, h, 0x40_0000, true)
  {
    var wrap: nat := if 2 * t + 2 * h + e < WORDS then 0 else 512;
    var q, rest := h / 0x40_0000, h % 0x40_0000;
    var carry: nat := if t + rest < 0x40_0000 then 0 else 1;
    var y := Moved(2 * t, 2 * h + e, WORDS, true);
    Small(2 * h + e);
    assert y == 2 * (t + h - wrap * 0x40_0000) + e;
    assert y / 2 == t + h - wrap * 0x40_0000;
    DivModIs(y / 2, 0x40_0000, q + carry - wrap, t + rest - carry * 0x40_0000);
  }

  lemma Small(x: nat)
    requires x < WORDS
    ensures x % WORDS == x
  {
  }

  lemma HalfDifference(t: nat, h: nat, e: nat)
    requires t < 0x40_0000 && e < 2 && 2 * h + e < WORDS
    ensures var y := Moved(2 * t, 2 * h + e, WORDS, false);
            y / 2 % 0x40_0000 == Moved(t, h + e, 0x40_0000, false)
  {
    var a := h + e;
    var wrap: nat := if 2 * h + e <= 2 * t then 0 else 512;
    var q, rest := a / 0x40_0000, a % 0x40_0000;
    var borrow: nat := if rest <= t then 0 else 1;
    var y := Moved(2 * t, 2 * h + e, WORDS, false);
    Small(2 * h + e);
    assert y == 2 * (t - a + wrap * 0x40_0000) + e;
    assert y / 2 == t - a + wrap * 0x40_0000;
    DivModIs(y / 2, 0x40_0000, wrap - q - borrow, t - rest + borrow * 0x40_0000);
  }

  lemma OddStep(h: nat)
    ensures (h + 1) % 0x40_0000 == if h % 0x40_0000 == 0x3f_ffff then 0 else h % 0x40_0000 + 1
  {
  }

  /** Even positions move the target by half as much, so the way back restores it; odd ones lose a unit. */
  lemma StepInverse(position: u32, t: nat, back: bool)
    requires t < 0x40_0000
    ensures Step(position, Step(position, t, back), !back) == t <==> position % 2 == 0
  {
    var h := position / 2;
    StepIs(position, t, back);
    StepIs(position, Step(position, t, back), !back);
    hide Step;
    if position % 2 == 0 {
      MovedBack(t, h, 0x40_0000, back);
    } else {
      OddStep(h);
    }
  }

  // ---- whole buffers ----

  /** Where the pair at `offset` counts from: four bytes ahead. */
  function PairPosition(start: u32, offset: nat): u32 {
    (start + offset + 4) % WORDS
  }

  function Rewritten(start: u32, offset: nat, s: seq<byte>, back: bool): (t: seq<byte>)
    requires IsBranch(s)
    ensures |t| == 4 && IsBranch(t)
  {
    Pair(Step(PairPosition(start, offset), Target(s[..4]), back))
  }

  /** A branch is rewritten and skipped; anything else advances by one halfword. */
  function Scan(start: u32, offset: nat, s: seq<byte>, back: bool): (t: seq<byte>)
    ensures |t| == |s|
    decreases |s|
  {
    if |s| < 4 then s
    else if IsBranch(s) then Rewritten(start, offset, s, back) + Scan(start, offset + 4, s[4..], back)
    else s[..2] + Scan(start, offset + 2, s[2..], back)
  }

  /** Scanning never changes the bits of the second byte that mark the first half of a branch. */
  lemma SecondByteStays(start: u32, offset: nat, s: seq<byte>, back: bool)
    requires |s| >= 2
    ensures Scan(start, offset, s, back)[1] / 8 == s[1] / 8
  {
    hide Rewritten;
  }

  /** So what was no branch is none afterwards, whatever the pair after it became. */
  lemma NoBranchStays(start: u32, offset: nat, s: seq<byte>, back: bool)
    requires |s| >= 4 && !IsBranch(s)
    ensures !IsBranch(Scan(start, offset, s, back))
  {
    SecondByteStays(start, offset + 2, s[2..], back);
    hide Rewritten;
    var tail := Scan(start, offset + 2, s[2..], back);
    assert Scan(start, offset, s, back)[3] == tail[1] && s[2..][1] == s[3];
  }

  lemma ScanBranch(start: u32, offset: nat, s: seq<byte>, back: bool)
    requires |s| >= 4 && IsBranch(s)
    ensures var t := Scan(start, offset, s, back);
            t[..4] == Rewritten(start, offset, s, back) && t[4..] == Scan(start, offset + 4, s[4..], back)
  {
    hide IsBranch, Rewritten;
  }

  lemma ScanOther(start: u32, offset: nat, s: seq<byte>, back: bool)
    requires |s| >= 4 && !IsBranch(s)
    ensures var t := Scan(start, offset, s, back); t[..2] == s[..2] && t[2..] == Scan(start, offset + 2, s[2..], back)
  {
    hide IsBranch, Rewritten;
  }

  lemma SplitsAt(s: seq<byte>, t: seq<byte>, k: nat)
    requires k <= |s| == |t| && s[..k] == t[..k] && s[k..] == t[k..]
    ensures s == t
  {
    assert s == s[..k] + s[k..] && t == t[..k] + t[k..];
  }

  lemma {:induction false} ScanInverse(start: u32, offset: nat, s: seq<byte>, back: bool)
    requires start % 2 == 0 && offset % 2 == 0
    ensures Scan(start, offset, Scan(start, offset, s, back), !back) == s
    decreases |s|
  {
    if |s| >= 4 {
      if !IsBranch(s) {
        NoBranchStays(start, offset, s, back);
      }
      hide Rewritten, IsBranch, Scan;
      var t := Scan(start, offset, s, back);
      var u := Scan(start, offset, t, !back);
      if IsBranch(s) {
        ScanBranch(start, offset, s, back);
        PairBack(start, offset, s, t, back);
        ScanBranch(start, offset, t, !back);
        ScanInverse(start, offset + 4, s[4..], back);
        SplitsAt(u, s, 4);
      } else {
        ScanOther(start, offset, s, back);
        ScanOther(start, offset, t, !back);
        ScanInverse(start, offset + 2, s[2..], back);
        SplitsAt(u, s, 2);
      }
    }
  }

  lemma BranchPrefix(t: seq<byte>)
    requires |t| >= 4
    ensures IsBranch(t) <==> IsBranch(t[..4])
    ensures t[..4][..4] == t[..4]
  {
  }

  /** A rewritten pair is still a branch, and the opposite rewriting restores it. */
  lemma PairBack(start: u32, offset: nat, s: seq<byte>, t: seq<byte>, back: bool)
    requires IsBranch(s) && start % 2 == 0 && offset % 2 == 0
    requires |t| >= 4 && t[..4] == Rewritten(start, offset, s, back)
    ensures IsBranch(t) && Rewritten(start, offset, t, !back) == s[..4]
  {
    hide Step, Target, Pair, PairPosition;
    BranchPrefix(s);
    BranchPrefix(t);
    hide IsBranch;
    EvenPosition(start, offset);
    var p, old_ := PairPosition(start, offset), Target(s[..4]);
    StepInverse(p, old_, back);
    PairInverse(old_, s[..4]);
    PairInverse(Step(p, old_, back), s[..4]);
  }

  lemma EvenPosition(start: u32, offset: nat)
    ensures PairPosition(start, offset) % 2 == 0 <==> start % 2 == offset % 2
  {
  }

  /** The filter is undone exactly from even starting positions. */
  lemma ThumbInverse(start: u32)
    ensures (forall s: seq<byte>, back: bool :: Scan(start, 0, Scan(start, 0, s, back), !back) == s) <==> start % 2 == 0
  {
    hide Scan;
    if start % 2 == 0 {
      forall s: seq<byte>, back: bool
        ensures Scan(start, 0, Scan(start, 0, s, back), !back) == s
      {
        ScanInverse(start, 0, s, back);
      }
    } else {
      OddStart(start);
      assert exists s: seq<byte> :: Scan(start, 0, Scan(start, 0, s, false), true) != s;
    }
  }

  /** From an odd start a single branch comes back one unit short. */
  lemma OddStart(start: u32)
    requires start % 2 == 1
    ensures Scan(start, 0, Scan(start, 0, Pair(0), false), true) != Pair(0)
  {
    var p := PairPosition(start, 0);
    EvenPosition(start, 0);
    var u := Step(p, 0, false);
    var v := Step(p, u, true);
    StepInverse(p, 0, false);
    PairInverse(0, []);
    PairInverse(u, []);
    PairInverse(v, []);
    hide Step, Target, Pair, PairPosition;
    OnePair(start, 0, false);
    OnePair(start, u, true);
  }

  lemma OnePair(start: u32, t: nat, back: bool)
    requires t < 0x40_0000
    ensures Scan(start, 0, Pair(t), back) == Pair(Step(PairPosition(start, 0), t, back))
  {
    PairInverse(t, []);
    hide Step, Target, Pair, PairPosition;
    assert Pair(t)[..4] == Pair(t) && Pair(t)[4..] == [];
  }

  // ---- in place ----

  /** What a scan stopped at `offset` still has to do. */
  ghost predicate Scanned(start: u32, before: seq<byte>, now: seq<byte>, offset: nat)
    requires offset <= |now|
  {
    Scan(start, 0, before, false) == now[..offset] + Scan(start, offset, now[offset..], false)
  }

  /** `decode_arm_thumb`. */
  method DecodeThumb(bytes: array<byte>, properties: seq<byte>) returns (r: Result<()>)
    modifies bytes
    ensures r.Ok? <==> bytes.Length < 4 || StartingPosition(properties).Ok?
    ensures r.Ok? && bytes.Length >= 4 ==>
              bytes[..] == Scan(StartingPosition(properties).value, 0, old(bytes[..]), false)
    ensures bytes.Length < 4 ==> bytes[..] == old(bytes[..])
  {
    if bytes.Length < 4 {
      return Ok(());
    }
    var position := StartingPosition(properties);
    if position.Err? {
      return Err(position.error);
    }
    hide Scan, Rewritten;
    var start := position.value;
    var scanEnd, offset: nat := bytes.Length - 4, 0;
    assert bytes[..0] + Scan(start, 0, bytes[0..], false) == Scan(start, 0, bytes[..], false) by {
      assert bytes[0..] == bytes[..];
    }
    while offset <= scanEnd
      invariant offset <= bytes.Length && Scanned(start, old(bytes[..]), bytes[..], offset)
      decreases bytes.Length - offset
    {
      ghost var now := bytes[..];
      ScanStep(start, old(bytes[..]), now, offset);
      if bytes[offset + 1] / 8 == 0x1e && bytes[offset + 3] / 8 == 0x1f {
        var pair := Rewritten(start, offset, bytes[offset..], false);
        WriteWord(bytes, offset, pair);
        offset := offset + 2;
      }
      offset := offset + 2;
    }
    ScanStops(start, offset, bytes[offset..]);
    r := Ok(());
  }

  lemma ScanStep(start: u32, before: seq<byte>, now: seq<byte>, offset: nat)
    requires offset + 4 <= |now| && Scanned(start, before, now, offset)
    ensures !IsBranch(now[offset..]) ==> Scanned(start, before, now, offset + 2)
    ensures IsBranch(now[offset..]) ==>
              var next := now[..offset] + Rewritten(start, offset, now[offset..], false) + now[offset + 4..];
              Scanned(start, before, next, offset + 4)
  {
    hide Rewritten;
    var rest := now[offset..];
    if IsBranch(rest) {
      var w := Rewritten(start, offset, rest, false);
      var next := now[..offset] + w + now[offset + 4..];
      assert next[offset + 4..] == rest[4..] && next[..offset + 4] == now[..offset] + w;
    } else {
      assert now[offset + 2..] == rest[2..] && now[..offset + 2] == now[..offset] + rest[..2];
    }
  }

  lemma ScanStops(start: u32, offset: nat, rest: seq<byte>)
    requires |rest| < 4
    ensures Scan(start, offset, rest, false) == rest
  {
  }
}
