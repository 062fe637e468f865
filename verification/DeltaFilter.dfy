/** The Delta filter: a ring of 256 bytes that undoes byte differencing. */
module DeltaFilter {
  import opened Prelude

  /** Each output byte is its input plus the output `d` places back, modulo 256; zero before the start. */
  function Summed(s: seq<byte>, d: nat): (t: seq<byte>)
    requires d >= 1
    ensures |t| == |s|
  {
    if s == [] then []
    else
      var t, i := Summed(s[..|s| - 1], d), |s| - 1;
      t + [(s[i] as int + Back(t, d)) % 0x100]
  }

  /** The byte `d` places before the end, or zero. */
  function Back(t: seq<byte>, d: nat): byte
    requires d >= 1
  {
    if d <= |t| then t[|t| - d] else 0
  }

  /** The encoder: differences at distance `d`. */
  function Differences(t: seq<byte>, d: nat): (s: seq<byte>)
    requires d >= 1
    ensures |s| == |t|
  {
    if t == [] then []
    else
      var i := |t| - 1;
      Differences(t[..i], d) + [(t[i] as int - Back(t[..i], d) as int) % 0x100]
  }

  /** What the filter means, byte by byte. */
  lemma {:induction false} SummedAt(s: seq<byte>, d: nat, i: nat)
    requires d >= 1 && i < |s|
    ensures Summed(s, d)[i] as int ==
            (s[i] as int + if i >= d then Summed(s, d)[i - d] as int else 0) % 0x100
    decreases |s|
  {
    var init := s[..|s| - 1];
    if i < |s| - 1 {
      SummedAt(init, d, i);
    }
  }

  /** Summing undoes differencing, and differencing undoes summing, at every distance. */
  lemma {:induction false} DeltaInverse(s: seq<byte>, d: nat)
    requires d >= 1
    ensures Summed(Differences(s, d), d) == s
    ensures Differences(Summed(s, d), d) == s
    decreases |s|
  {
    if s != [] {
      var i := |s| - 1;
      var init := s[..i];
      DeltaInverse(init, d);
      var diff, sum := Differences(s, d), Summed(s, d);
      assert diff[..i] == Differences(init, d) && sum[..i] == Summed(init, d);
      SubAdd(s[i], Back(init, d));
      SubAdd(s[i], Back(Summed(init, d), d));
      assert s == init + [s[i]];
    }
  }

  lemma SubAdd(a: byte, b: byte)
    ensures ((a as int - b as int) % 0x100 + b as int) % 0x100 == a
    ensures ((a as int + b as int) % 0x100 - b as int) % 0x100 == a
  {
  }

  // ---- the ring ----

  /** The ring read `j` places after its position holds the output `j` places back. */
  ghost predicate Rings(history: seq<byte>, position: nat, out: seq<byte>) {
    |history| == 256 && position < 256 && forall j | 1 <= j <= 256 :: history[RingIndex(position, j)] == Back(out, j)
  }

  function RingIndex(position: nat, j: nat): (k: nat)
    requires position < 256 && j <= 256
    ensures k < 256
  {
    if position + j < 256 then position + j else position + j - 256
  }

  function Decrement(position: nat): (p: nat)
    requires position < 256
    ensures p < 256
  {
    if position == 0 then 255 else position - 1
  }

  lemma RingNext(history: seq<byte>, position: nat, out: seq<byte>, b: byte)
    requires Rings(history, position, out)
    ensures Rings(history[position := b], Decrement(position), out + [b])
  {
    var next, p := history[position := b], Decrement(position);
    forall j | 1 <= j <= 256
      ensures next[RingIndex(p, j)] == Back(out + [b], j)
    {
      if j > 1 {
        assert RingIndex(p, j) == RingIndex(position, j - 1);
        assert RingIndex(position, j - 1) != position;
      }
    }
  }

  /** `decode_delta`, in place. */
  method DecodeDelta(bytes: array<byte>, properties: seq<byte>) returns (r: Result<()>)
    modifies bytes
    ensures r.Ok? <==> |properties| == 1
    ensures r.Ok? ==> bytes[..] == Summed(old(bytes[..]), properties[0] as int + 1)
    ensures r.Err? ==> bytes[..] == old(bytes[..])
  {
    if |properties| != 1 {
      return Err(Format);
    }
    hide Rings, RingIndex;
    var distance: nat := properties[0] as int + 1;
    var history: seq<byte>, position: nat := seq(256, i => 0), 0;
    EmptyRing(history);
    for i := 0 to bytes.Length
      invariant bytes[i..] == old(bytes[i..])
      invariant bytes[..i] == Summed(old(bytes[..i]), distance)
      invariant |history| == 256 && position < 256 && Rings(history, position, bytes[..i])
    {
      RingRead(history, position, bytes[..i], distance);
      var previous := history[(distance + position) % 256];
      ghost var out := bytes[..i];
      assert old(bytes[..i + 1])[..i] == old(bytes[..i]);
      bytes[i] := (bytes[i] as int + previous as int) % 0x100;
      RingNext(history, position, out, bytes[i]);
      assert bytes[..i + 1] == out + [bytes[i]];
      history := history[position := bytes[i]];
      position := Decrement(position);
    }
    assert bytes[..bytes.Length] == bytes[..] && old(bytes[..bytes.Length]) == old(bytes[..]);
    r := Ok(());
  }

  lemma EmptyRing(history: seq<byte>)
    requires |history| == 256 && forall i | 0 <= i < 256 :: history[i] == 0
    ensures Rings(history, 0, [])
  {
  }

  lemma RingRead(history: seq<byte>, position: nat, out: seq<byte>, d: nat)
    requires Rings(history, position, out) && 1 <= d <= 256
    ensures |history| == 256 && position < 256 && 0 <= (d + position) % 256 < 256
    ensures history[(d + position) % 256] == Back(out, d)
  {
    assert RingIndex(position, d) == (d + position) % 256;
  }
}
