/** Validation of a folder's coder graph: ports, bind pairs, root, packed inputs and schedule. */
module GraphValidation {
  import opened Prelude
  import opened GraphOrder

  datatype Ports = Ports(inputs: nat, outputs: nat)

  /** A parsed folder, as far as its graph goes. */
  datatype RawFolder = RawFolder(
    coders: seq<Ports>, inputStreams: nat, outputStreams: nat,
    pairs: seq<BindPair>, packedStreams: nat, packedIndices: Option<seq<nat>>)

  datatype ValidatedGraph = ValidatedGraph(pairs: seq<BindPair>, packed: seq<nat>, root: nat, order: seq<nat>)

  function Inputs(coders: seq<Ports>): (counts: seq<nat>)
    ensures |counts| == |coders|
  {
    seq(|coders|, i requires 0 <= i < |coders| => coders[i].inputs)
  }

  function Outputs(coders: seq<Ports>): (counts: seq<nat>)
    ensures |counts| == |coders|
  {
    seq(|coders|, i requires 0 <= i < |coders| => coders[i].outputs)
  }

  function Sum(counts: seq<nat>): nat {
    if counts == [] then 0 else Sum(counts[..|counts| - 1]) + counts[|counts| - 1]
  }

  /** The owner of each port: consecutive ports of consecutive coders. */
  function Owners(counts: seq<nat>): (owners: seq<nat>)
    ensures |owners| == Sum(counts) && Owned(owners, |counts|)
  {
    if counts == [] then []
    else
      var k := |counts| - 1;
      Owners(counts[..k]) + seq(counts[k], i => k)
  }

  /** Ports numbered by `validate_folder` agree with their owners: port `Sum(counts[..i]) + r` belongs to coder `i`. */
  lemma {:induction false} OwnerOfPort(counts: seq<nat>, i: nat, r: nat)
    requires i < |counts| && r < counts[i]
    ensures Sum(counts[..i]) + r < Sum(counts) && Owners(counts)[Sum(counts[..i]) + r] == i
    decreases |counts|
  {
    var k := |counts| - 1;
    if i < k {
      assert counts[..k][..i] == counts[..i];
      OwnerOfPort(counts[..k], i, r);
    }
  }

  /** Conversely every port lies in its owner's range. */
  lemma {:induction false} PortOfOwner(counts: seq<nat>, port: nat)
    requires port < Sum(counts)
    ensures var i := Owners(counts)[port]; i < |counts| && Sum(counts[..i]) <= port < Sum(counts[..i]) + counts[i]
    decreases |counts|
  {
    var k := |counts| - 1;
    if port < Sum(counts[..k]) {
      PortOfOwner(counts[..k], port);
      var i := Owners(counts)[port];
      assert counts[..k][..i] == counts[..i];
    }
  }

  predicate InputBound(pairs: seq<BindPair>, i: nat) {
    exists k | 0 <= k < |pairs| :: pairs[k].input == i
  }

  predicate OutputBound(pairs: seq<BindPair>, o: nat) {
    exists k | 0 <= k < |pairs| :: pairs[k].output == o
  }

  /** No port is bound twice. */
  ghost predicate PairsOk(pairs: seq<BindPair>, inputs: nat, outputs: nat) {
    && PairsWithin(pairs, inputs, outputs)
    && forall j, k | 0 <= j < k < |pairs| :: pairs[j].input != pairs[k].input && pairs[j].output != pairs[k].output
  }

  /** Exactly one output feeds nothing. */
  predicate RootOk(pairs: seq<BindPair>, outputs: nat, root: nat) {
    && root < outputs && !OutputBound(pairs, root)
    && forall o | 0 <= o < outputs && o != root :: OutputBound(pairs, o)
  }

  /** The packed inputs are all the inputs that no output feeds, each once. */
  ghost predicate PackedOk(pairs: seq<BindPair>, inputs: nat, packed: seq<nat>) {
    && NoRepeats(packed) && (forall k | 0 <= k < |packed| :: packed[k] < inputs)
    && forall i | 0 <= i < inputs :: InputBound(pairs, i) <==> i !in packed
  }

  ghost predicate PackedChosen(raw: RawFolder, packed: seq<nat>) {
    |packed| == raw.packedStreams && (raw.packedIndices == Some(packed) || (raw.packedIndices.None? && |packed| == 1))
  }

  function GraphEdges(raw: RawFolder): seq<Edge>
    requires PairsWithin(raw.pairs, Sum(Inputs(raw.coders)), Sum(Outputs(raw.coders)))
  {
    EdgesOf(Owners(Inputs(raw.coders)), Owners(Outputs(raw.coders)), raw.pairs)
  }

  predicate TotalsOk(raw: RawFolder) {
    Sum(Inputs(raw.coders)) == raw.inputStreams && Sum(Outputs(raw.coders)) == raw.outputStreams
  }

  /** What a folder graph has to satisfy. */
  ghost predicate GraphOk(raw: RawFolder) {
    && TotalsOk(raw)
    && PairsOk(raw.pairs, raw.inputStreams, raw.outputStreams)
    && (exists root :: RootOk(raw.pairs, raw.outputStreams, root))
    && (exists packed :: PackedChosen(raw, packed) && PackedOk(raw.pairs, raw.inputStreams, packed))
    && Acyclic(GraphEdges(raw))
  }

  /** What validation returns. */
  ghost predicate GraphMatches(raw: RawFolder, g: ValidatedGraph)
    requires GraphOk(raw)
  {
    && g.pairs == raw.pairs
    && RootOk(raw.pairs, raw.outputStreams, g.root)
    && PackedChosen(raw, g.packed) && PackedOk(raw.pairs, raw.inputStreams, g.packed)
    && IsOrder(GraphEdges(raw), |raw.coders|, g.order)
  }

  // ---- the validator ----

  ghost predicate MarksInputs(used: seq<bool>, pairs: seq<BindPair>) {
    forall i | 0 <= i < |used| :: used[i] <==> InputBound(pairs, i)
  }

  ghost predicate MarksOutputs(used: seq<bool>, pairs: seq<BindPair>) {
    forall o | 0 <= o < |used| :: used[o] <==> OutputBound(pairs, o)
  }

  method ValidateBindPair(raw: BindPair, inputUsed: array<bool>, outputUsed: array<bool>)
    returns (r: Result<BindPair>)
    requires inputUsed != outputUsed
    modifies inputUsed, outputUsed
    ensures r.Ok? <==>
            && raw.input < inputUsed.Length && !old(inputUsed[..])[raw.input]
            && raw.output < outputUsed.Length && !old(outputUsed[..])[raw.output]
    ensures r.Ok? ==>
              && r.value == raw
              && inputUsed[..] == old(inputUsed[..])[raw.input := true]
              && outputUsed[..] == old(outputUsed[..])[raw.output := true]
  {
    if raw.input >= inputUsed.Length || inputUsed[raw.input] {
      return Err(Format);
    }
    inputUsed[raw.input] := true;
    if raw.output >= outputUsed.Length || outputUsed[raw.output] {
      return Err(Format);
    }
    outputUsed[raw.output] := true;
    r := Ok(raw);
  }

  lemma PairAdded(pairs: seq<BindPair>, pair: BindPair, inputUsed: seq<bool>, outputUsed: seq<bool>)
    requires MarksInputs(inputUsed, pairs) && MarksOutputs(outputUsed, pairs)
    requires PairsOk(pairs, |inputUsed|, |outputUsed|)
    ensures PairsOk(pairs + [pair], |inputUsed|, |outputUsed|) <==>
            && pair.input < |inputUsed| && !inputUsed[pair.input]
            && pair.output < |outputUsed| && !outputUsed[pair.output]
    ensures PairsOk(pairs + [pair], |inputUsed|, |outputUsed|) ==>
              && MarksInputs(inputUsed[pair.input := true], pairs + [pair])
              && MarksOutputs(outputUsed[pair.output := true], pairs + [pair])
  {
    var more := pairs + [pair];
    assert more[|pairs|] == pair && pair in more;
    forall k | 0 <= k < |pairs|
      ensures more[k] == pairs[k]
    {
    }
    if pair.input < |inputUsed| && pair.output < |outputUsed| {
      BoundMore(pairs, pair);
    }
  }

  lemma BoundMore(pairs: seq<BindPair>, pair: BindPair)
    ensures forall i :: InputBound(pairs + [pair], i) <==> InputBound(pairs, i) || i == pair.input
    ensures forall o :: OutputBound(pairs + [pair], o) <==> OutputBound(pairs, o) || o == pair.output
  {
    var more := pairs + [pair];
    assert more[|pairs|] == pair;
    forall k | 0 <= k < |pairs|
      ensures more[k] == pairs[k]
    {
    }
  }

  lemma PairsPrefix(pairs: seq<BindPair>, k: nat, inputs: nat, outputs: nat)
    requires k <= |pairs| && PairsOk(pairs, inputs, outputs)
    ensures PairsOk(pairs[..k], inputs, outputs)
  {
  }

  method BindAll(pairs: seq<BindPair>, inputUsed: array<bool>, outputUsed: array<bool>)
    returns (r: Result<seq<BindPair>>)
    requires inputUsed != outputUsed
    requires forall i | 0 <= i < inputUsed.Length :: !inputUsed[i]
    requires forall o | 0 <= o < outputUsed.Length :: !outputUsed[o]
    modifies inputUsed, outputUsed
    ensures r.Ok? <==> PairsOk(pairs, inputUsed.Length, outputUsed.Length)
    ensures r.Ok? ==> r.value == pairs && MarksInputs(inputUsed[..], pairs) && MarksOutputs(outputUsed[..], pairs)
  {
    var bound: seq<BindPair> := [];
    for k := 0 to |pairs|
      invariant bound == pairs[..k] && PairsOk(bound, inputUsed.Length, outputUsed.Length)
      invariant MarksInputs(inputUsed[..], bound) && MarksOutputs(outputUsed[..], bound)
    {
      assert pairs[..k + 1] == bound + [pairs[k]];
      PairAdded(bound, pairs[k], inputUsed[..], outputUsed[..]);
      var pair := ValidateBindPair(pairs[k], inputUsed, outputUsed);
      if pair.Err? {
        if PairsOk(pairs, inputUsed.Length, outputUsed.Length) {
          PairsPrefix(pairs, k + 1, inputUsed.Length, outputUsed.Length);
          assert false;
        }
        return Err(pair.error);
      }
      bound := bound + [pair.value];
    }
    assert pairs[..|pairs|] == pairs;
    r := Ok(bound);
  }

  /** The only unbound output, if there is exactly one. */
  method FindRoot(outputUsed: array<bool>, ghost pairs: seq<BindPair>) returns (r: Result<nat>)
    requires MarksOutputs(outputUsed[..], pairs)
    ensures r.Ok? <==> exists root :: RootOk(pairs, outputUsed.Length, root)
    ensures r.Ok? ==> RootOk(pairs, outputUsed.Length, r.value)
  {
    var root: Option<nat> := None;
    for o := 0 to outputUsed.Length
      invariant root.Some? ==> root.value < o && !outputUsed[root.value]
      invariant forall p | 0 <= p < o && root != Some(p) :: outputUsed[p]
    {
      if !outputUsed[o] {
        if root.Some? {
          assert !OutputBound(pairs, o) && !OutputBound(pairs, root.value);
          return Err(Format);
        }
        root := Some(o);
      }
    }
    assert outputUsed[..][..] == outputUsed[..];
    if root.None? {
      assert forall o | 0 <= o < outputUsed.Length :: OutputBound(pairs, o);
      return Err(Format);
    }
    assert RootOk(pairs, outputUsed.Length, root.value);
    r := Ok(root.value);
  }

  /** The declared packed inputs, or the first unbound one. */
  method ChoosePacked(raw: RawFolder, inputUsed: array<bool>) returns (r: Result<seq<nat>>)
    requires MarksInputs(inputUsed[..], raw.pairs)
    ensures r.Ok? ==> |r.value| == raw.packedStreams && (raw.packedIndices.Some? ==> r.value == raw.packedIndices.value)
    ensures r.Ok? && raw.packedIndices.None? ==>
              && |r.value| == 1 && r.value[0] < inputUsed.Length && !inputUsed[r.value[0]]
              && forall i | 0 <= i < r.value[0] :: inputUsed[i]
    ensures r.Err? ==> (if raw.packedIndices.Some? then |raw.packedIndices.value| != raw.packedStreams
                        else raw.packedStreams != 1 || forall i | 0 <= i < inputUsed.Length :: inputUsed[i])
  {
    var packed: seq<nat> := [];
    if raw.packedIndices.Some? {
      packed := raw.packedIndices.value;
    } else {
      var i: nat := 0;
      while i < inputUsed.Length && inputUsed[i]
        invariant i <= inputUsed.Length && forall j | 0 <= j < i :: inputUsed[j]
      {
        i := i + 1;
      }
      if i == inputUsed.Length {
        return Err(Format);
      }
      packed := [i];
    }
    if |packed| != raw.packedStreams {
      return Err(Format);
    }
    r := Ok(packed);
  }

  /** Whether the packed inputs are distinct, unbound, and together with the bound ones all the inputs. */
  method CheckPacked(packed: seq<nat>, inputUsed: array<bool>, ghost pairs: seq<BindPair>) returns (ok: bool)
    requires MarksInputs(inputUsed[..], pairs)
    ensures ok <==> PackedOk(pairs, inputUsed.Length, packed)
  {
    var packedUsed := new bool[inputUsed.Length](i => false);
    for k := 0 to |packed|
      invariant NoRepeats(packed[..k])
      invariant forall j | 0 <= j < k :: packed[j] < inputUsed.Length && !inputUsed[packed[j]]
      invariant forall i | 0 <= i < inputUsed.Length :: packedUsed[i] <==> i in packed[..k]
    {
      assert packed[..k + 1] == packed[..k] + [packed[k]];
      if packed[k] >= inputUsed.Length || packedUsed[packed[k]] {
        return false;
      }
      if inputUsed[packed[k]] {
        assert InputBound(pairs, packed[k]) && packed[k] in packed;
        return false;
      }
      packedUsed[packed[k]] := true;
    }
    assert packed[..|packed|] == packed;
    for i := 0 to inputUsed.Length
      invariant forall j | 0 <= j < i :: inputUsed[j] != packedUsed[j]
    {
      if inputUsed[i] == packedUsed[i] {
        assert InputBound(pairs, i) == (i in packed);
        return false;
      }
    }
    ok := true;
  }

  /** When nothing is declared, the first unbound input is the only possible choice. */
  lemma OnlyChoice(raw: RawFolder, inputs: nat, first: nat, packed: seq<nat>)
    requires raw.packedIndices.None? && PackedChosen(raw, packed) && PackedOk(raw.pairs, inputs, packed)
    requires first < inputs && !InputBound(raw.pairs, first)
    ensures packed == [first]
  {
    assert first in packed;
  }

  /** The owner of every port, in port order. */
  method CollectOwners(coders: seq<Ports>) returns (inputs: seq<nat>, outputs: seq<nat>)
    ensures inputs == Owners(Inputs(coders)) && outputs == Owners(Outputs(coders))
  {
    inputs, outputs := [], [];
    for k := 0 to |coders|
      invariant inputs == Owners(Inputs(coders[..k])) && outputs == Owners(Outputs(coders[..k]))
    {
      assert Inputs(coders[..k + 1])[..k] == Inputs(coders[..k]);
      assert Outputs(coders[..k + 1])[..k] == Outputs(coders[..k]);
      inputs := inputs + seq(coders[k].inputs, i => k);
      outputs := outputs + seq(coders[k].outputs, i => k);
    }
    assert coders[..|coders|] == coders;
  }

  /** `validate_folder_graph` accepts exactly the graphs that satisfy `GraphOk`. */
  method ValidateFolderGraph(raw: RawFolder) returns (r: Result<ValidatedGraph>)
    ensures r.Ok? <==> GraphOk(raw)
    ensures r.Ok? ==> GraphMatches(raw, r.value)
  {
    hide PairsOk, RootOk, PackedOk, Acyclic, IsOrder, MarksInputs, MarksOutputs, Sum, Owned, EdgesOf, Owners;
    var inputOwners, outputOwners := CollectOwners(raw.coders);
    if |inputOwners| != raw.inputStreams || |outputOwners| != raw.outputStreams {
      return Err(Format);
    }
    var inputUsed := new bool[raw.inputStreams](i => false);
    var outputUsed := new bool[raw.outputStreams](i => false);
    var pairs := BindAll(raw.pairs, inputUsed, outputUsed);
    if pairs.Err? {
      return Err(pairs.error);
    }
    var root := FindRoot(outputUsed, raw.pairs);
    if root.Err? {
      return Err(root.error);
    }
    var packed := ChooseAndCheck(raw, inputUsed);
    if packed.Err? {
      return Err(packed.error);
    }
    PairsAreWithin(raw.pairs, raw.inputStreams, raw.outputStreams);
    var order, _ := TopologicalOrder(|raw.coders|, inputOwners, outputOwners, raw.pairs);
    if order.Err? {
      return Err(order.error);
    }
    r := Ok(ValidatedGraph(pairs.value, packed.value, root.value, order.value));
  }

  lemma PairsAreWithin(pairs: seq<BindPair>, inputs: nat, outputs: nat)
    requires PairsOk(pairs, inputs, outputs)
    ensures PairsWithin(pairs, inputs, outputs)
  {
  }

  method ChooseAndCheck(raw: RawFolder, inputUsed: array<bool>) returns (r: Result<seq<nat>>)
    requires MarksInputs(inputUsed[..], raw.pairs)
    ensures r.Ok? <==> exists packed :: PackedChosen(raw, packed) && PackedOk(raw.pairs, inputUsed.Length, packed)
    ensures r.Ok? ==> PackedChosen(raw, r.value) && PackedOk(raw.pairs, inputUsed.Length, r.value)
  {
    var packed := ChoosePacked(raw, inputUsed);
    if packed.Err? {
      forall any | PackedChosen(raw, any)
        ensures !PackedOk(raw.pairs, inputUsed.Length, any)
      {
        if raw.packedIndices.None? {
          assert any[0] in any;
        }
      }
      return Err(packed.error);
    }
    var ok := CheckPacked(packed.value, inputUsed, raw.pairs);
    if !ok {
      forall any | PackedChosen(raw, any)
        ensures !PackedOk(raw.pairs, inputUsed.Length, any)
      {
        if raw.packedIndices.None? && PackedOk(raw.pairs, inputUsed.Length, any) {
          OnlyChoice(raw, inputUsed.Length, packed.value[0], any);
          assert false;
        }
      }
      return Err(Format);
    }
    r := packed;
  }

  // ---- parsed folders ----

  /** The counts `parse_folder` gives every folder it returns. */
  predicate Parsed(raw: RawFolder) {
    && raw.outputStreams >= 1 && |raw.pairs| == raw.outputStreams - 1
    && raw.packedStreams >= 1 && raw.packedStreams + |raw.pairs| == raw.inputStreams
    && (raw.packedIndices.None? <==> raw.packedStreams == 1)
    && (raw.packedIndices.Some? ==> |raw.packedIndices.value| == raw.packedStreams)
  }

  /** Numbers below `n`, one fewer than `n` and all different, leave out exactly one. */
  lemma OneLeft(s: seq<nat>, n: nat) returns (v: nat)
    requires NoRepeats(s) && (forall k | 0 <= k < |s| :: s[k] < n) && |s| + 1 == n
    ensures v < n && v !in s
    ensures forall u | 0 <= u < n && u != v :: u in s
  {
    v := MissingFrom(s, n);
    forall u | 0 <= u < n && u != v
      ensures u in s
    {
      if u !in s {
        PigeonHole(s + [v, u], n);
      }
    }
  }

  lemma NoneLeft(s: seq<nat>, n: nat)
    requires NoRepeats(s) && (forall k | 0 <= k < |s| :: s[k] < n) && |s| == n
    ensures forall u | 0 <= u < n :: u in s
  {
    forall u | 0 <= u < n
      ensures u in s
    {
      if u !in s {
        PigeonHole(s + [u], n);
      }
    }
  }

  function BoundInputs(pairs: seq<BindPair>): (s: seq<nat>)
    ensures |s| == |pairs| && forall k | 0 <= k < |pairs| :: s[k] == pairs[k].input
  {
    seq(|pairs|, k requires 0 <= k < |pairs| => pairs[k].input)
  }

  function BoundOutputs(pairs: seq<BindPair>): (s: seq<nat>)
    ensures |s| == |pairs| && forall k | 0 <= k < |pairs| :: s[k] == pairs[k].output
  {
    seq(|pairs|, k requires 0 <= k < |pairs| => pairs[k].output)
  }

  lemma BoundIn(pairs: seq<BindPair>)
    ensures forall i :: InputBound(pairs, i) <==> i in BoundInputs(pairs)
    ensures forall o :: OutputBound(pairs, o) <==> o in BoundOutputs(pairs)
  {
    forall i | i in BoundInputs(pairs)
      ensures InputBound(pairs, i)
    {
      var k :| 0 <= k < |pairs| && BoundInputs(pairs)[k] == i;
    }
    forall i: nat | InputBound(pairs, i)
      ensures i in BoundInputs(pairs)
    {
      var k :| 0 <= k < |pairs| && pairs[k].input == i;
      assert BoundInputs(pairs)[k] == i;
    }
    forall o | o in BoundOutputs(pairs)
      ensures OutputBound(pairs, o)
    {
      var k :| 0 <= k < |pairs| && BoundOutputs(pairs)[k] == o;
    }
    forall o: nat | OutputBound(pairs, o)
      ensures o in BoundOutputs(pairs)
    {
      var k :| 0 <= k < |pairs| && pairs[k].output == o;
      assert BoundOutputs(pairs)[k] == o;
    }
  }

  /** A parsed folder whose pairs are in order has exactly one root: the root errors cannot occur. */
  lemma ParsedHasRoot(raw: RawFolder)
    requires Parsed(raw) && PairsOk(raw.pairs, raw.inputStreams, raw.outputStreams)
    ensures exists root :: RootOk(raw.pairs, raw.outputStreams, root)
  {
    BoundIn(raw.pairs);
    var s := BoundOutputs(raw.pairs);
    forall k | 0 <= k < |s|
      ensures s[k] < raw.outputStreams
    {
      assert raw.pairs[k] in raw.pairs;
    }
    hide OutputBound;
    var root := OneLeft(s, raw.outputStreams);
    assert RootOk(raw.pairs, raw.outputStreams, root);
  }

  /** Declared packed inputs: distinct, in range and unbound. */
  ghost predicate DeclaredOk(raw: RawFolder) {
    raw.packedIndices.Some? ==>
      && NoRepeats(raw.packedIndices.value)
      && forall k | 0 <= k < |raw.packedIndices.value| ::
           raw.packedIndices.value[k] < raw.inputStreams && !InputBound(raw.pairs, raw.packedIndices.value[k])
  }

  /** By count, distinct unbound packed inputs leave no input over: the partition error cannot occur. */
  lemma ParsedIsPartitioned(raw: RawFolder) returns (packed: seq<nat>)
    requires Parsed(raw) && PairsOk(raw.pairs, raw.inputStreams, raw.outputStreams) && DeclaredOk(raw)
    ensures PackedChosen(raw, packed) && PackedOk(raw.pairs, raw.inputStreams, packed)
  {
    BoundIn(raw.pairs);
    var s := BoundInputs(raw.pairs);
    forall k | 0 <= k < |s|
      ensures s[k] < raw.inputStreams
    {
      assert raw.pairs[k] in raw.pairs;
    }
    hide InputBound;
    if raw.packedIndices.None? {
      var v := OneLeft(s, raw.inputStreams);
      packed := [v];
    } else {
      packed := raw.packedIndices.value;
      var both := s + packed;
      forall j, k | 0 <= j < k < |both|
        ensures both[j] != both[k]
      {
        if j < |s| <= k {
          assert s[j] in s && both[k] == packed[k - |s|];
        }
      }
      NoneLeft(both, raw.inputStreams);
      forall i | 0 <= i < raw.inputStreams
        ensures InputBound(raw.pairs, i) <==> i !in packed
      {
        assert i in both;
      }
    }
  }

  /** For parsed folders, validation comes down to distinct ports in range and no cycle. */
  lemma ParsedGraphs(raw: RawFolder)
    requires Parsed(raw)
    ensures GraphOk(raw) <==>
            && TotalsOk(raw) && PairsOk(raw.pairs, raw.inputStreams, raw.outputStreams)
            && DeclaredOk(raw) && Acyclic(GraphEdges(raw))
  {
    hide PairsOk, Acyclic, RootOk;
    if PairsOk(raw.pairs, raw.inputStreams, raw.outputStreams) {
      PairsAreWithin(raw.pairs, raw.inputStreams, raw.outputStreams);
      ParsedHasRoot(raw);
      if DeclaredOk(raw) {
        var packed := ParsedIsPartitioned(raw);
      }
      forall packed | PackedChosen(raw, packed) && PackedOk(raw.pairs, raw.inputStreams, packed)
        ensures DeclaredOk(raw)
      {
        forall k | 0 <= k < |packed|
          ensures !InputBound(raw.pairs, packed[k])
        {
          assert packed[k] in packed;
        }
      }
    }
  }
}
