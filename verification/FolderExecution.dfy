/** Executing a folder: the port-moving executor evaluates the tree of coders below the root output. */
module FolderExecution {
  import opened Prelude
  import opened GraphOrder
  import opened GraphValidation
  import opened PackedStreams

  type Bytes = seq<byte>

  /** What a coder computes from its inputs; a failure stands for any error it reports. */
  type Decoder = (nat, seq<Bytes>) -> Result<Bytes>

  /** A coder's ranges of input and output ports. */
  datatype Coder = Coder(inputStart: nat, inputCount: nat, outputStart: nat, outputCount: nat)

  datatype Folder = Folder(coders: seq<Coder>, pairs: seq<BindPair>, packed: seq<nat>, root: nat, order: seq<nat>)

  lemma NoPorts()
    ensures Sum([]) == 0
  {
  }

  lemma SumNext(counts: seq<nat>, k: nat)
    requires k < |counts|
    ensures Sum(counts[..k + 1]) == Sum(counts[..k]) + counts[k]
  {
    assert counts[..k + 1][..k] == counts[..k];
  }

  /** The port ranges `validate_folder` assigns: consecutive, in coder order. */
  method AssignRanges(ports: seq<Ports>) returns (coders: seq<Coder>, inputs: nat, outputs: nat)
    ensures |coders| == |ports|
    ensures forall i | 0 <= i < |ports| ::
              coders[i] == Coder(Sum(Inputs(ports)[..i]), ports[i].inputs, Sum(Outputs(ports)[..i]), ports[i].outputs)
    ensures inputs == Sum(Inputs(ports)) && outputs == Sum(Outputs(ports))
  {
    hide Sum;
    NoPorts();
    coders, inputs, outputs := [], 0, 0;
    for k := 0 to |ports|
      invariant |coders| == k && inputs == Sum(Inputs(ports)[..k]) && outputs == Sum(Outputs(ports)[..k])
      invariant forall i | 0 <= i < k ::
          coders[i] == Coder(Sum(Inputs(ports)[..i]), ports[i].inputs, Sum(Outputs(ports)[..i]), ports[i].outputs)
    {
      SumNext(Inputs(ports), k);
      SumNext(Outputs(ports), k);
      coders := coders + [Coder(inputs, ports[k].inputs, outputs, ports[k].outputs)];
      inputs, outputs := inputs + ports[k].inputs, outputs + ports[k].outputs;
    }
    assert Inputs(ports)[..|ports|] == Inputs(ports) && Outputs(ports)[..|ports|] == Outputs(ports);
  }

  /** A folder as validation leaves it. */
  ghost predicate Validated(raw: RawFolder, f: Folder) {
    && GraphOk(raw) && GraphMatches(raw, ValidatedGraph(f.pairs, f.packed, f.root, f.order))
    && |f.coders| == |raw.coders|
    && forall i | 0 <= i < |raw.coders| ::
         f.coders[i] == Coder(Sum(Inputs(raw.coders)[..i]), raw.coders[i].inputs,
                              Sum(Outputs(raw.coders)[..i]), raw.coders[i].outputs)
  }

  /** The coder each input port belongs to. */
  ghost predicate Owns(coders: seq<Coder>, owners: seq<nat>) {
    && Owned(owners, |coders|)
    && forall i, p | 0 <= i < |coders| && coders[i].inputStart <= p < coders[i].inputStart + coders[i].inputCount ::
         p < |owners| && owners[p] == i
  }

  /** Ports lie in their owner's range. */
  ghost predicate Ranged(coders: seq<Coder>, owners: seq<nat>) {
    forall p | 0 <= p < |owners| ::
      && owners[p] < |coders|
      && coders[owners[p]].inputStart <= p < coders[owners[p]].inputStart + coders[owners[p]].inputCount
  }

  /** A validated folder whose coders all have one output, numbered like the coder. */
  ghost predicate Good(f: Folder, owners: seq<nat>) {
    var n := |f.coders|;
    && (forall i | 0 <= i < n :: f.coders[i].outputStart == i && f.coders[i].outputCount == 1)
    && Owns(f.coders, owners) && Ranged(f.coders, owners)
    && PairsOk(f.pairs, |owners|, n) && RootOk(f.pairs, n, f.root) && PackedOk(f.pairs, |owners|, f.packed)
    && IsOrder(FolderEdges(f, owners), n, f.order)
  }

  function FolderEdges(f: Folder, owners: seq<nat>): (edges: seq<Edge>)
    requires PairsWithin(f.pairs, |owners|, |f.coders|)
    ensures |edges| == |f.pairs|
  {
    seq(|f.pairs|, k requires 0 <= k < |f.pairs| =>
      assert f.pairs[k] in f.pairs; Edge(f.pairs[k].output, owners[f.pairs[k].input]))
  }

  lemma {:induction false} OnesSum(counts: seq<nat>)
    requires forall i | 0 <= i < |counts| :: counts[i] == 1
    ensures Sum(counts) == |counts|
    ensures forall i | 0 <= i < |counts| :: Owners(counts)[i] == i
  {
    if counts != [] {
      OnesSum(counts[..|counts| - 1]);
    }
  }

  lemma PortsRanged(raw: RawFolder, f: Folder)
    requires Validated(raw, f)
    ensures Ranged(f.coders, Owners(Inputs(raw.coders)))
  {
    hide PairsOk, RootOk, PackedOk, Acyclic, IsOrder, Sum, Owners, PackedChosen, GraphOk, GraphMatches;
    var ins := Inputs(raw.coders);
    forall p | 0 <= p < |Owners(ins)|
      ensures Owners(ins)[p] < |f.coders|
      ensures var c := f.coders[Owners(ins)[p]]; c.inputStart <= p < c.inputStart + c.inputCount
    {
      PortOfOwner(ins, p);
    }
  }

  lemma PortsOwned(raw: RawFolder, f: Folder)
    requires Validated(raw, f)
    ensures Owns(f.coders, Owners(Inputs(raw.coders))) && Ranged(f.coders, Owners(Inputs(raw.coders)))
  {
    hide PairsOk, RootOk, PackedOk, Acyclic, IsOrder, Sum, Owners, PackedChosen, GraphOk, GraphMatches;
    PortsRanged(raw, f);
    var ins := Inputs(raw.coders);
    assert Owned(Owners(ins), |f.coders|);
    forall i, p | 0 <= i < |f.coders| && f.coders[i].inputStart <= p < f.coders[i].inputStart + f.coders[i].inputCount
      ensures p < |Owners(ins)| && Owners(ins)[p] == i
    {
      OwnerOfPort(ins, i, p - f.coders[i].inputStart);
    }
  }

  /** Validation and single outputs make a folder good. */
  lemma ValidatedIsGood(raw: RawFolder, f: Folder)
    requires Validated(raw, f) && forall i | 0 <= i < |f.coders| :: f.coders[i].outputCount == 1
    ensures Good(f, Owners(Inputs(raw.coders)))
  {
    hide PairsOk, RootOk, PackedOk, Acyclic, IsOrder, Sum, Owners, PackedChosen;
    var ins, outs := Inputs(raw.coders), Outputs(raw.coders);
    var owners := Owners(ins);
    OnesSum(outs);
    forall i | 0 <= i < |f.coders|
      ensures f.coders[i].outputStart == i
    {
      OnesSum(outs[..i]);
    }
    PortsOwned(raw, f);
    hide Owns, Ranged;
    PairsAreWithin(f.pairs, |owners|, |f.coders|);
    SameEdges(raw, f);
  }

  lemma SameEdges(raw: RawFolder, f: Folder)
    requires Validated(raw, f) && forall i | 0 <= i < |f.coders| :: f.coders[i].outputCount == 1
    requires PairsWithin(f.pairs, |Owners(Inputs(raw.coders))|, |f.coders|)
    ensures GraphEdges(raw) == FolderEdges(f, Owners(Inputs(raw.coders)))
  {
    hide PairsOk, RootOk, PackedOk, Acyclic, IsOrder, Sum, Owners, PackedChosen;
    var outs := Outputs(raw.coders);
    OnesSum(outs);
    var a, b := GraphEdges(raw), FolderEdges(f, Owners(Inputs(raw.coders)));
    forall k | 0 <= k < |f.pairs|
      ensures a[k] == b[k]
    {
      assert f.pairs[k] in f.pairs;
    }
  }

  // ---- the tree of coders ----

  /** The pair that feeds an input, if any. */
  function FindPair(pairs: seq<BindPair>, p: nat): (k: Option<nat>)
    ensures k.Some? <==> InputBound(pairs, p)
    ensures k.Some? ==> k.value < |pairs| && pairs[k.value].input == p
  {
    if pairs == [] then None
    else
      var last := |pairs| - 1;
      if pairs[last].input == p then Some(last)
      else
        assert forall j | 0 <= j < last :: pairs[..last][j] == pairs[j];
        FindPair(pairs[..last], p)
  }

  /** An input comes from the coder bound to it, or from a packed stream. */
  datatype Source = FromCoder(coder: nat) | FromPack(ordinal: nat)

  ghost function SourceOf(f: Folder, owners: seq<nat>, p: nat): (s: Source)
    requires Good(f, owners) && p < |owners|
    ensures owners[p] < |f.coders|
    ensures s.FromCoder? ==> s.coder < |f.coders| && Rank(f, owners, s.coder) < Rank(f, owners, owners[p])
    ensures s.FromPack? ==> s.ordinal < |f.packed| && f.packed[s.ordinal] == p
  {
    var k := FindPair(f.pairs, p);
    if k.Some? then
      FeederFirst(f, owners, k.value);
      FromCoder(f.pairs[k.value].output)
    else
      assert p in f.packed;
      FromPack(Index(f.packed, p))
  }

  /** The order runs a feeding coder before the coder it feeds. */
  lemma FeederFirst(f: Folder, owners: seq<nat>, k: nat)
    requires Good(f, owners) && k < |f.pairs|
    ensures var (s, t) := (f.pairs[k].output, f.pairs[k].input);
            && s < |f.coders| && t < |owners| && owners[t] < |f.coders|
            && Rank(f, owners, s) < Rank(f, owners, owners[t])
  {
    assert f.pairs[k] in f.pairs;
    var e := FolderEdges(f, owners)[k];
    assert e in FolderEdges(f, owners);
  }

  /** When a coder runs. */
  ghost function Rank(f: Folder, owners: seq<nat>, i: nat): (r: nat)
    requires Good(f, owners) && i < |f.coders|
    ensures r < |f.order| == |f.coders| && f.order[r] == i
  {
    Position(f.order, i)
  }

  /** The value of coder `i`: what it computes from the values of the coders and packed streams that feed it. */
  ghost function Eval(f: Folder, owners: seq<nat>, packs: seq<Bytes>, d: Decoder, i: nat): Result<Bytes>
    requires Good(f, owners) && i < |f.coders| && |packs| == |f.packed|
    decreases Rank(f, owners, i), 2, 0
  {
    var inputs :- EvalInputs(f, owners, packs, d, i, f.coders[i].inputCount);
    d(i, inputs)
  }

  ghost function EvalInputs(f: Folder, owners: seq<nat>, packs: seq<Bytes>, d: Decoder, i: nat, k: nat)
    : (x: Result<seq<Bytes>>)
    requires Good(f, owners) && i < |f.coders| && |packs| == |f.packed| && k <= f.coders[i].inputCount
    ensures x.Ok? ==> |x.value| == k
    decreases Rank(f, owners, i), 1, k
  {
    if k == 0 then Ok([])
    else
      var init :- EvalInputs(f, owners, packs, d, i, k - 1);
      var p := f.coders[i].inputStart + k - 1;
      PortOwner(f.coders, owners, i, p);
      var v :- EvalPort(f, owners, packs, d, p);
      Ok(init + [v])
  }

  ghost function EvalPort(f: Folder, owners: seq<nat>, packs: seq<Bytes>, d: Decoder, p: nat): Result<Bytes>
    requires Good(f, owners) && p < |owners| && |packs| == |f.packed|
    decreases Rank(f, owners, owners[p]), 0, 0
  {
    match SourceOf(f, owners, p)
    case FromCoder(o) => Eval(f, owners, packs, d, o)
    case FromPack(ordinal) => Ok(packs[ordinal])
  }

  // ---- what the executor's vectors hold ----

  function AsOption<T>(x: Result<T>): Option<T> {
    if x.Ok? then Some(x.value) else None
  }

  /** The pair that leads away from an output, if any. */
  function FindOutput(pairs: seq<BindPair>, o: nat): (k: Option<nat>)
    ensures k.Some? <==> OutputBound(pairs, o)
    ensures k.Some? ==> k.value < |pairs| && pairs[k.value].output == o
  {
    if pairs == [] then None
    else
      var last := |pairs| - 1;
      if pairs[last].output == o then Some(last)
      else
        assert forall j | 0 <= j < last :: pairs[..last][j] == pairs[j];
        FindOutput(pairs[..last], o)
  }

  function Destination(pairs: seq<BindPair>, o: nat): Option<nat> {
    var k := FindOutput(pairs, o);
    if k.Some? then Some(pairs[k.value].input) else None
  }

  /** An input port when `t` coders have run: empty once its coder ran, else what has arrived so far. */
  ghost function PortAt(f: Folder, owners: seq<nat>, packs: seq<Bytes>, d: Decoder, t: nat, p: nat): Option<Bytes>
    requires Good(f, owners) && p < |owners| && |packs| == |f.packed|
  {
    if Rank(f, owners, owners[p]) < t then None
    else
      match SourceOf(f, owners, p)
      case FromPack(ordinal) => Some(packs[ordinal])
      case FromCoder(o) => if Rank(f, owners, o) < t then AsOption(Eval(f, owners, packs, d, o)) else None
  }

  ghost predicate PortsHold(f: Folder, owners: seq<nat>, packs: seq<Bytes>, d: Decoder, t: nat,
                            ports: seq<Option<Bytes>>)
    requires Good(f, owners) && |packs| == |f.packed|
  {
    |ports| == |owners| && forall p | 0 <= p < |ports| :: ports[p] == PortAt(f, owners, packs, d, t, p)
  }

  ghost predicate RootHolds(f: Folder, owners: seq<nat>, packs: seq<Bytes>, d: Decoder, t: nat,
                            ports: seq<Option<Bytes>>)
    requires Good(f, owners) && |packs| == |f.packed|
  {
    && |ports| == |f.coders|
    && forall o | 0 <= o < |ports| ::
         ports[o] == if o == f.root && Rank(f, owners, o) < t then AsOption(Eval(f, owners, packs, d, o)) else None
  }

  ghost predicate DestinationsHold(f: Folder, owners: seq<nat>, t: nat, dests: seq<Option<nat>>)
    requires Good(f, owners)
  {
    && |dests| == |f.coders|
    && forall o | 0 <= o < |dests| :: dests[o] == if Rank(f, owners, o) < t then None else Destination(f.pairs, o)
  }

  ghost predicate AllSucceed(f: Folder, owners: seq<nat>, packs: seq<Bytes>, d: Decoder, t: nat)
    requires Good(f, owners) && |packs| == |f.packed|
  {
    forall i | 0 <= i < |f.coders| && Rank(f, owners, i) < t :: Eval(f, owners, packs, d, i).Ok?
  }

  lemma RankOfNext(f: Folder, owners: seq<nat>, t: nat)
    requires Good(f, owners) && t < |f.order|
    ensures f.order[t] < |f.coders| && Rank(f, owners, f.order[t]) == t
    ensures forall i | 0 <= i < |f.coders| && i != f.order[t] :: Rank(f, owners, i) != t
  {
    assert f.order[t] in f.order;
  }

  /** The next coder's inputs have all arrived: the "unavailable" error cannot occur. */
  lemma InputArrived(f: Folder, owners: seq<nat>, packs: seq<Bytes>, d: Decoder, t: nat, p: nat)
    requires Good(f, owners) && |packs| == |f.packed| && t < |f.order| && p < |owners| && owners[p] == f.order[t]
    requires AllSucceed(f, owners, packs, d, t)
    ensures PortAt(f, owners, packs, d, t, p).Some?
    ensures EvalPort(f, owners, packs, d, p) == Ok(PortAt(f, owners, packs, d, t, p).value)
  {
    hide Good, Eval;
    RankOfNext(f, owners, t);
    var s := SourceOf(f, owners, p);
  }

  /** A bound output leads to the one input it feeds; the root leads nowhere. */
  lemma DestinationFed(f: Folder, owners: seq<nat>, o: nat)
    requires Good(f, owners) && o < |f.coders|
    ensures Destination(f.pairs, o).None? <==> o == f.root
    ensures Destination(f.pairs, o).Some? ==>
              && Destination(f.pairs, o).value < |owners|
              && SourceOf(f, owners, Destination(f.pairs, o).value) == FromCoder(o)
    ensures forall p | 0 <= p < |owners| && SourceOf(f, owners, p) == FromCoder(o) :: Destination(f.pairs, o) == Some(p)
  {
    hide IsOrder, PackedOk, Ranged, Owns;
    var k := FindOutput(f.pairs, o);
    if k.Some? {
      assert f.pairs[k.value] in f.pairs;
      var j := FindPair(f.pairs, f.pairs[k.value].input);
    }
    forall p | 0 <= p < |owners| && SourceOf(f, owners, p) == FromCoder(o)
      ensures Destination(f.pairs, o) == Some(p)
    {
      var j := FindPair(f.pairs, p);
    }
  }

  // ---- the executor ----

  /** Input ports with the first `k` inputs of coder `c` taken out. */
  ghost predicate Taken(f: Folder, owners: seq<nat>, packs: seq<Bytes>, d: Decoder, t: nat, c: nat, k: nat,
                        ports: seq<Option<Bytes>>)
    requires Good(f, owners) && |packs| == |f.packed| && c < |f.coders|
  {
    && |ports| == |owners|
    && forall p | 0 <= p < |ports| ::
         ports[p] == if f.coders[c].inputStart <= p < f.coders[c].inputStart + k then None
                     else PortAt(f, owners, packs, d, t, p)
  }

  lemma PortOwner(coders: seq<Coder>, owners: seq<nat>, i: nat, p: nat)
    requires Owns(coders, owners) && i < |coders|
    requires coders[i].inputStart <= p < coders[i].inputStart + coders[i].inputCount
    ensures p < |owners| && owners[p] == i
  {
  }

  lemma NextInput(f: Folder, owners: seq<nat>, packs: seq<Bytes>, d: Decoder, t: nat, k: nat, ports: seq<Option<Bytes>>)
    requires Good(f, owners) && |packs| == |f.packed| && t < |f.order| && f.order[t] < |f.coders|
    requires AllSucceed(f, owners, packs, d, t) && k < f.coders[f.order[t]].inputCount
    requires Taken(f, owners, packs, d, t, f.order[t], k, ports)
    ensures var p := f.coders[f.order[t]].inputStart + k;
            && p < |ports| && ports[p].Some?
            && EvalPort(f, owners, packs, d, p) == Ok(ports[p].value)
            && Taken(f, owners, packs, d, t, f.order[t], k + 1, ports[p := None])
  {
    hide IsOrder, PackedOk, Ranged, RootOk, PairsOk, Eval, EvalPort, PortAt;
    var p := f.coders[f.order[t]].inputStart + k;
    PortOwner(f.coders, owners, f.order[t], p);
    assert p < |ports| && ports[p] == PortAt(f, owners, packs, d, t, p);
    InputArrived(f, owners, packs, d, t, p);
  }

  lemma InputsNext(f: Folder, owners: seq<nat>, packs: seq<Bytes>, d: Decoder, c: nat, k: nat, init: seq<Bytes>,
                   v: Bytes)
    requires Good(f, owners) && |packs| == |f.packed| && c < |f.coders| && k < f.coders[c].inputCount
    requires EvalInputs(f, owners, packs, d, c, k) == Ok(init)
    requires f.coders[c].inputStart + k < |owners|
    requires EvalPort(f, owners, packs, d, f.coders[c].inputStart + k) == Ok(v)
    ensures EvalInputs(f, owners, packs, d, c, k + 1) == Ok(init + [v])
  {
    hide Good, EvalPort;
  }

  method TakeInputs(f: Folder, ghost owners: seq<nat>, ghost packs: seq<Bytes>, ghost d: Decoder, ghost t: nat, c: nat,
                    inputPorts: array<Option<Bytes>>) returns (r: Result<seq<Bytes>>)
    requires Good(f, owners) && |packs| == |f.packed| && t < |f.order| && c == f.order[t] && c < |f.coders|
    requires AllSucceed(f, owners, packs, d, t) && PortsHold(f, owners, packs, d, t, inputPorts[..])
    modifies inputPorts
    ensures r.Ok? && EvalInputs(f, owners, packs, d, c, f.coders[c].inputCount) == Ok(r.value)
    ensures Taken(f, owners, packs, d, t, c, f.coders[c].inputCount, inputPorts[..])
  {
    hide Good, PortAt, AllSucceed, EvalPort;
    var inputs: seq<Bytes> := [];
    for relative := 0 to f.coders[c].inputCount
      invariant Taken(f, owners, packs, d, t, c, relative, inputPorts[..])
      invariant EvalInputs(f, owners, packs, d, c, relative) == Ok(inputs)
    {
      var p := f.coders[c].inputStart + relative;
      NextInput(f, owners, packs, d, t, relative, inputPorts[..]);
      var input := inputPorts[p];
      ghost var before := inputPorts[..];
      inputPorts[p] := None;
      assert inputPorts[..] == before[p := None];
      if input.None? {
        return Err(Format);
      }
      InputsNext(f, owners, packs, d, c, relative, inputs, input.value);
      inputs := inputs + [input.value];
    }
    r := Ok(inputs);
  }

  lemma EvalIs(f: Folder, owners: seq<nat>, packs: seq<Bytes>, d: Decoder, c: nat, inputs: seq<Bytes>)
    requires Good(f, owners) && |packs| == |f.packed| && c < |f.coders|
    requires EvalInputs(f, owners, packs, d, c, f.coders[c].inputCount) == Ok(inputs)
    ensures Eval(f, owners, packs, d, c) == d(c, inputs)
  {
    hide Good, EvalInputs;
  }

  /** The port that the next coder feeds is still empty, and belongs to a later coder. */
  lemma DeliveryFree(f: Folder, owners: seq<nat>, packs: seq<Bytes>, d: Decoder, t: nat)
    requires Good(f, owners) && |packs| == |f.packed| && t < |f.order| && f.order[t] < |f.coders|
    requires Destination(f.pairs, f.order[t]).Some?
    ensures var p := Destination(f.pairs, f.order[t]).value;
            && p < |owners| && owners[p] < |f.coders| && Rank(f, owners, owners[p]) > t
            && owners[p] != f.order[t]
            && PortAt(f, owners, packs, d, t, p).None?
  {
    hide Good, Destination, SourceOf, Eval;
    RankOfNext(f, owners, t);
    DestinationFed(f, owners, f.order[t]);
    var s := SourceOf(f, owners, Destination(f.pairs, f.order[t]).value);
  }

  /** Delivering the next coder's output brings every port to the state after it. */
  lemma PortsAdvance(f: Folder, owners: seq<nat>, packs: seq<Bytes>, d: Decoder, t: nat, p: nat)
    requires Good(f, owners) && |packs| == |f.packed| && t < |f.order| && f.order[t] < |f.coders| && p < |owners|
    requires Eval(f, owners, packs, d, f.order[t]).Ok?
    ensures owners[p] == f.order[t] ==> PortAt(f, owners, packs, d, t + 1, p) == None
    ensures Destination(f.pairs, f.order[t]) == Some(p) ==>
              PortAt(f, owners, packs, d, t + 1, p) == Some(Eval(f, owners, packs, d, f.order[t]).value)
    ensures owners[p] != f.order[t] && Destination(f.pairs, f.order[t]) != Some(p) ==>
              PortAt(f, owners, packs, d, t + 1, p) == PortAt(f, owners, packs, d, t, p)
  {
    var c := f.order[t];
    if Destination(f.pairs, c) == Some(p) {
      DeliveryFree(f, owners, packs, d, t);
    }
    hide Good, Destination, SourceOf, Eval;
    RankOfNext(f, owners, t);
    DestinationFed(f, owners, c);
    var s := SourceOf(f, owners, p);
  }

  lemma PortsDelivered(f: Folder, owners: seq<nat>, packs: seq<Bytes>, d: Decoder, t: nat, ports: seq<Option<Bytes>>,
                       next: seq<Option<Bytes>>)
    requires Good(f, owners) && |packs| == |f.packed| && t < |f.order| && f.order[t] < |f.coders|
    requires Eval(f, owners, packs, d, f.order[t]).Ok?
    requires Taken(f, owners, packs, d, t, f.order[t], f.coders[f.order[t]].inputCount, ports)
    requires var to := Destination(f.pairs, f.order[t]);
             if to.Some?
             then to.value < |ports| && next == ports[to.value := Some(Eval(f, owners, packs, d, f.order[t]).value)]
             else next == ports
    ensures PortsHold(f, owners, packs, d, t + 1, next)
  {
    hide IsOrder, PackedOk, RootOk, PairsOk, Destination, Eval, PortAt;
    forall p | 0 <= p < |owners|
      ensures next[p] == PortAt(f, owners, packs, d, t + 1, p)
    {
      PortsAdvance(f, owners, packs, d, t, p);
      if Destination(f.pairs, f.order[t]) == Some(p) {
        DeliveryFree(f, owners, packs, d, t);
      }
    }
  }

  lemma RootAdvances(f: Folder, owners: seq<nat>, packs: seq<Bytes>, d: Decoder, t: nat, ports: seq<Option<Bytes>>)
    requires Good(f, owners) && |packs| == |f.packed| && t < |f.order| && f.order[t] < |f.coders|
    requires RootHolds(f, owners, packs, d, t, ports) && Eval(f, owners, packs, d, f.order[t]).Ok?
    ensures var c := f.order[t];
            && ports[c].None?
            && (c == f.root ==>
                  RootHolds(f, owners, packs, d, t + 1, ports[c := Some(Eval(f, owners, packs, d, c).value)]))
            && (c != f.root ==> RootHolds(f, owners, packs, d, t + 1, ports))
  {
    hide Good, Eval;
    RankOfNext(f, owners, t);
  }

  lemma DestinationsAdvance(f: Folder, owners: seq<nat>, t: nat, dests: seq<Option<nat>>)
    requires Good(f, owners) && t < |f.order| && f.order[t] < |f.coders| && DestinationsHold(f, owners, t, dests)
    ensures dests[f.order[t]] == Destination(f.pairs, f.order[t])
    ensures DestinationsHold(f, owners, t + 1, dests[f.order[t] := None])
  {
    hide Good, Destination;
    RankOfNext(f, owners, t);
  }

  lemma SuccessAdvances(f: Folder, owners: seq<nat>, packs: seq<Bytes>, d: Decoder, t: nat)
    requires Good(f, owners) && |packs| == |f.packed| && t < |f.order| && f.order[t] < |f.coders|
    requires AllSucceed(f, owners, packs, d, t) && Eval(f, owners, packs, d, f.order[t]).Ok?
    ensures AllSucceed(f, owners, packs, d, t + 1)
  {
    hide Good, Eval;
    RankOfNext(f, owners, t);
  }

  /** Moves an output to the input it feeds, or to the root; neither place is ever occupied. */
  method Deliver(f: Folder, ghost owners: seq<nat>, ghost packs: seq<Bytes>, ghost d: Decoder, ghost t: nat, c: nat,
                 output: Bytes, inputPorts: array<Option<Bytes>>, outputPorts: array<Option<Bytes>>,
                 destinations: array<Option<nat>>) returns (r: Result<()>)
    requires inputPorts != outputPorts
    requires Good(f, owners) && |packs| == |f.packed| && t < |f.order| && c == f.order[t] && c < |f.coders|
    requires Eval(f, owners, packs, d, c) == Ok(output)
    requires Taken(f, owners, packs, d, t, c, f.coders[c].inputCount, inputPorts[..])
    requires RootHolds(f, owners, packs, d, t, outputPorts[..]) && DestinationsHold(f, owners, t, destinations[..])
    modifies inputPorts, outputPorts, destinations
    ensures r.Ok? && PortsHold(f, owners, packs, d, t + 1, inputPorts[..])
    ensures RootHolds(f, owners, packs, d, t + 1, outputPorts[..])
    ensures DestinationsHold(f, owners, t + 1, destinations[..])
  {
    DestinationsAdvance(f, owners, t, destinations[..]);
    RootAdvances(f, owners, packs, d, t, outputPorts[..]);
    DestinationFed(f, owners, c);
    ghost var ports, roots, dests := inputPorts[..], outputPorts[..], destinations[..];
    if Destination(f.pairs, c).Some? {
      DeliveryFree(f, owners, packs, d, t);
      OtherCoder(f, owners, c, Destination(f.pairs, c).value);
      PortsDelivered(f, owners, packs, d, t, ports, ports[Destination(f.pairs, c).value := Some(output)]);
    } else {
      PortsDelivered(f, owners, packs, d, t, ports, ports);
    }
    hide Good, Eval, Destination, PortsHold, SourceOf, PortAt;
    var destination := destinations[c];
    destinations[c] := None;
    assert destinations[..] == dests[c := None];
    if destination.Some? {
      var occupied := inputPorts[destination.value].Some?;
      inputPorts[destination.value] := Some(output);
      assert inputPorts[..] == ports[destination.value := Some(output)];
      if occupied {
        return Err(Format);
      }
    } else {
      var occupied := outputPorts[c].Some?;
      outputPorts[c] := Some(output);
      assert outputPorts[..] == roots[c := Some(output)];
      if occupied {
        return Err(Format);
      }
    }
    r := Ok(());
  }

  lemma OtherCoder(f: Folder, owners: seq<nat>, c: nat, p: nat)
    requires Good(f, owners) && c < |f.coders| && p < |owners| && owners[p] != c
    ensures !(f.coders[c].inputStart <= p < f.coders[c].inputStart + f.coders[c].inputCount)
  {
  }

  method OutputDestinations(f: Folder, ghost owners: seq<nat>, count: nat) returns (r: Result<array<Option<nat>>>)
    requires Good(f, owners) && count == |f.coders|
    ensures r.Ok? && fresh(r.value) && DestinationsHold(f, owners, 0, r.value[..])
  {
    hide IsOrder, PackedOk, Ranged, RootOk, Owns;
    var destinations := new Option<nat>[count](i => None);
    for k := 0 to |f.pairs|
      invariant forall o | 0 <= o < count :: destinations[o] == Destination(f.pairs[..k], o)
    {
      assert f.pairs[..k + 1][..k] == f.pairs[..k];
      assert f.pairs[k] in f.pairs;
      var pair := f.pairs[k];
      var j := FindOutput(f.pairs[..k], pair.output);
      var occupied := destinations[pair.output].Some?;
      destinations[pair.output] := Some(pair.input);
      if occupied {
        return Err(Format);
      }
    }
    assert f.pairs[..|f.pairs|] == f.pairs;
    r := Ok(destinations);
  }

  /** Every packed stream of the folder, checked against the archive and its own digest, goes to its port. */
  method LoadPackedInputs(f: Folder, ghost owners: seq<nat>, x: Packed, ghost d: Decoder,
                          inputPorts: array<Option<Bytes>>) returns (r: Result<()>)
    requires Good(f, owners) && inputPorts.Length == |owners|
    requires forall p | 0 <= p < inputPorts.Length :: inputPorts[p] == None
    modifies inputPorts
    ensures r.Ok? <==> AllPacks(x, |f.packed|).Ok?
    ensures r.Ok? ==> PortsHold(f, owners, AllPacks(x, |f.packed|).value, d, 0, inputPorts[..])
  {
    hide IsOrder, PairsOk, RootOk, Ranged, Owns, PackBytes;
    for k := 0 to |f.packed|
      invariant forall p | 0 <= p < |owners| :: inputPorts[p].Some? <==> p in f.packed[..k]
      invariant forall j | 0 <= j < k :: PackBytes(x, j).Ok? && inputPorts[f.packed[j]] == Some(PackBytes(x, j).value)
    {
      assert f.packed[..k + 1] == f.packed[..k] + [f.packed[k]];
      var bytes :- LoadPack(x, k);
      if inputPorts[f.packed[k]].Some? {
        return Err(Format);
      }
      inputPorts[f.packed[k]] := Some(bytes);
    }
    assert f.packed[..|f.packed|] == f.packed;
    PortsLoaded(f, owners, AllPacks(x, |f.packed|).value, d, inputPorts[..]);
    r := Ok(());
  }

  lemma PortsLoaded(f: Folder, owners: seq<nat>, packs: seq<Bytes>, d: Decoder, ports: seq<Option<Bytes>>)
    requires Good(f, owners) && |packs| == |f.packed| && |ports| == |owners|
    requires forall p | 0 <= p < |owners| :: ports[p].Some? <==> p in f.packed
    requires forall j | 0 <= j < |f.packed| :: f.packed[j] < |ports| && ports[f.packed[j]] == Some(packs[j])
    ensures PortsHold(f, owners, packs, d, 0, ports)
  {
    forall p | 0 <= p < |owners|
      ensures ports[p] == PortAt(f, owners, packs, d, 0, p)
    {
      var s := SourceOf(f, owners, p);
      if s.FromCoder? {
        assert InputBound(f.pairs, p);
      }
    }
  }

  /** A failing coder makes every coder it leads to fail, and so the root. */
  lemma {:induction false} FailureReachesRoot(f: Folder, owners: seq<nat>, packs: seq<Bytes>, d: Decoder, c: nat)
    requires Good(f, owners) && |packs| == |f.packed| && c < |f.coders| && Eval(f, owners, packs, d, c).Err?
    ensures f.root < |f.coders| && Eval(f, owners, packs, d, f.root).Err?
    decreases |f.order| - Rank(f, owners, c)
  {
    RootInRange(f, owners);
    if c != f.root {
      DestinationFed(f, owners, c);
      var p := Destination(f.pairs, c).value;
      var next := owners[p];
      assert SourceOf(f, owners, p) == FromCoder(c);
      InRange(f, owners, p);
      assert EvalPort(f, owners, packs, d, p).Err?;
      hide Good, Destination, SourceOf, EvalPort;
      InputsFail(f, owners, packs, d, next, p, f.coders[next].inputCount);
      FailureReachesRoot(f, owners, packs, d, next);
    }
  }

  lemma RootInRange(f: Folder, owners: seq<nat>)
    requires Good(f, owners)
    ensures f.root < |f.coders| && f.root in f.order
  {
  }

  lemma InRange(f: Folder, owners: seq<nat>, p: nat)
    requires Good(f, owners) && p < |owners|
    ensures var i := owners[p];
            i < |f.coders| && f.coders[i].inputStart <= p < f.coders[i].inputStart + f.coders[i].inputCount
  {
  }

  lemma {:induction false} InputsFail(f: Folder, owners: seq<nat>, packs: seq<Bytes>, d: Decoder, i: nat, p: nat,
                                      k: nat)
    requires Good(f, owners) && |packs| == |f.packed| && i < |f.coders| && k <= f.coders[i].inputCount && p < |owners|
    requires f.coders[i].inputStart <= p < f.coders[i].inputStart + k && EvalPort(f, owners, packs, d, p).Err?
    ensures EvalInputs(f, owners, packs, d, i, k).Err?
    decreases k
  {
    hide Good, EvalPort;
    if p < f.coders[i].inputStart + k - 1 {
      InputsFail(f, owners, packs, d, i, p, k - 1);
    }
  }

  predicate SingleOutputs(f: Folder) {
    forall i | 0 <= i < |f.coders| :: f.coders[i].outputCount == 1
  }

  /** `decode_folder` on a validated folder: once its packed streams are intact, the value of the root coder, whatever
      order was scheduled. No port is ever missing, filled twice or left over; several outputs are refused. */
  method DecodeFolder(ghost raw: RawFolder, f: Folder, x: Packed, d: Decoder) returns (r: Result<Bytes>)
    requires Validated(raw, f)
    ensures r.Ok? ==> SingleOutputs(f) && AllPacks(x, |f.packed|).Ok?
    ensures SingleOutputs(f) && AllPacks(x, |f.packed|).Ok? ==>
              && Good(f, Owners(Inputs(raw.coders))) && f.root < |f.coders|
              && var v := Eval(f, Owners(Inputs(raw.coders)), AllPacks(x, |f.packed|).value, d, f.root);
                 (r.Ok? <==> v.Ok?) && (r.Ok? ==> r.value == v.value)
  {
    var counts := CountPorts(raw, f);
    if counts.Err? {
      return Err(counts.error);
    }
    ghost var owners := Owners(Inputs(raw.coders));
    ValidatedIsGood(raw, f);
    RootInRange(f, owners);
    hide Validated, Good, Eval, Owners, Sum;
    var inputPorts := new Option<Bytes>[counts.value.0](i => None);
    var outputPorts := new Option<Bytes>[counts.value.1](i => None);
    r := Execute(f, owners, x, d, inputPorts, outputPorts);
  }

  /** The registration check and the port totals. */
  method CountPorts(ghost raw: RawFolder, f: Folder) returns (r: Result<(nat, nat)>)
    requires Validated(raw, f)
    ensures r.Ok? <==> SingleOutputs(f)
    ensures r.Err? ==> r.error == Unsupported
    ensures r.Ok? ==> r.value == (Sum(Inputs(raw.coders)), |f.coders|)
  {
    hide GraphOk, GraphMatches, Sum;
    NoPorts();
    var inputCount, outputCount := 0, 0;
    for i := 0 to |f.coders|
      invariant forall j | 0 <= j < i :: f.coders[j].outputCount == 1
      invariant outputCount == i && inputCount == Sum(Inputs(raw.coders)[..i])
    {
      if f.coders[i].outputCount != 1 {
        return Err(Unsupported);
      }
      SumNext(Inputs(raw.coders), i);
      inputCount := inputCount + f.coders[i].inputCount;
      outputCount := outputCount + f.coders[i].outputCount;
    }
    assert Inputs(raw.coders)[..|f.coders|] == Inputs(raw.coders);
    r := Ok((inputCount, outputCount));
  }

  method Execute(f: Folder, ghost owners: seq<nat>, x: Packed, d: Decoder, inputPorts: array<Option<Bytes>>,
                 outputPorts: array<Option<Bytes>>) returns (r: Result<Bytes>)
    requires Good(f, owners) && f.root < |f.coders| && inputPorts != outputPorts
    requires inputPorts.Length == |owners| && forall p | 0 <= p < inputPorts.Length :: inputPorts[p] == None
    requires outputPorts.Length == |f.coders| && forall o | 0 <= o < outputPorts.Length :: outputPorts[o] == None
    modifies inputPorts, outputPorts
    ensures r.Ok? ==> AllPacks(x, |f.packed|).Ok?
    ensures AllPacks(x, |f.packed|).Ok? ==>
              var v := Eval(f, owners, AllPacks(x, |f.packed|).value, d, f.root);
              (r.Ok? <==> v.Ok?) && (r.Ok? ==> r.value == v.value)
  {
    hide Eval, PortsHold, RootHolds, DestinationsHold, AllSucceed, AllPacks;
    var destinations := OutputDestinations(f, owners, |f.coders|);
    var loaded := LoadPackedInputs(f, owners, x, d, inputPorts);
    if loaded.Err? {
      return Err(loaded.error);
    }
    ghost var packs := AllPacks(x, |f.packed|).value;
    NothingRun(f, owners, packs, d, outputPorts[..]);
    OrderLength(f, owners);
    hide Good;
    for t := 0 to |f.order|
      invariant PortsHold(f, owners, packs, d, t, inputPorts[..]) && RootHolds(f, owners, packs, d, t, outputPorts[..])
      invariant DestinationsHold(f, owners, t, destinations.value[..]) && fresh(destinations.value)
      invariant AllSucceed(f, owners, packs, d, t)
    {
      var c := f.order[t];
      RankOfNext(f, owners, t);
      var inputs := TakeInputs(f, owners, packs, d, t, c, inputPorts);
      EvalIs(f, owners, packs, d, c, inputs.value);
      var output := d(c, inputs.value);
      if output.Err? {
        FailureReachesRoot(f, owners, packs, d, c);
        return Err(output.error);
      }
      SuccessAdvances(f, owners, packs, d, t);
      var delivered := Deliver(f, owners, packs, d, t, c, output.value, inputPorts, outputPorts, destinations.value);
    }
    AllRun(f, owners, packs, d, inputPorts[..], outputPorts[..]);
    r := CollectRoot(f.root, inputPorts, outputPorts);
  }

  lemma NothingRun(f: Folder, owners: seq<nat>, packs: seq<Bytes>, d: Decoder, ports: seq<Option<Bytes>>)
    requires Good(f, owners) && |packs| == |f.packed| && |ports| == |f.coders|
    requires forall o | 0 <= o < |ports| :: ports[o] == None
    ensures RootHolds(f, owners, packs, d, 0, ports) && AllSucceed(f, owners, packs, d, 0)
  {
    hide Good;
  }

  lemma OrderLength(f: Folder, owners: seq<nat>)
    requires Good(f, owners)
    ensures |f.order| == |f.coders|
  {
  }

  /** After the last coder nothing is left but the root's value. */
  lemma AllRun(f: Folder, owners: seq<nat>, packs: seq<Bytes>, d: Decoder, inputs: seq<Option<Bytes>>,
               outputs: seq<Option<Bytes>>)
    requires Good(f, owners) && |packs| == |f.packed| && f.root < |f.coders|
    requires PortsHold(f, owners, packs, d, |f.order|, inputs) && RootHolds(f, owners, packs, d, |f.order|, outputs)
    requires AllSucceed(f, owners, packs, d, |f.order|)
    ensures forall p | 0 <= p < |inputs| :: inputs[p] == None
    ensures |outputs| == |f.coders| && forall o | 0 <= o < |outputs| && o != f.root :: outputs[o] == None
    ensures Eval(f, owners, packs, d, f.root).Ok?
    ensures outputs[f.root] == Some(Eval(f, owners, packs, d, f.root).value)
  {
    hide IsOrder, PackedOk, RootOk, PairsOk, Eval;
    forall p | 0 <= p < |inputs|
      ensures inputs[p] == None
    {
      InRange(f, owners, p);
    }
  }

  /** Nothing may be left behind, and the root has to be the only output. */
  method CollectRoot(root: nat, inputPorts: array<Option<Bytes>>, outputPorts: array<Option<Bytes>>)
    returns (r: Result<Bytes>)
    requires root < outputPorts.Length && inputPorts != outputPorts
    modifies outputPorts
    ensures r.Ok? <==>
            && (forall p | 0 <= p < inputPorts.Length :: inputPorts[p].None?)
            && old(outputPorts[root]).Some?
            && forall o | 0 <= o < outputPorts.Length && o != root :: old(outputPorts[o]).None?
    ensures r.Ok? ==> r.value == old(outputPorts[root]).value
  {
    for p := 0 to inputPorts.Length
      invariant forall q | 0 <= q < p :: inputPorts[q].None?
      invariant outputPorts[..] == old(outputPorts[..])
    {
      if inputPorts[p].Some? {
        return Err(Format);
      }
    }
    var bytes := outputPorts[root];
    outputPorts[root] := None;
    if bytes.None? {
      return Err(Format);
    }
    for o := 0 to outputPorts.Length
      invariant outputPorts[..] == old(outputPorts[..])[root := None]
      invariant forall q | 0 <= q < o :: outputPorts[q].None?
    {
      if outputPorts[o].Some? {
        assert old(outputPorts[..])[o] == outputPorts[..][o];
        return Err(Format);
      }
    }
    forall o | 0 <= o < outputPorts.Length && o != root
      ensures old(outputPorts[o]).None?
    {
      assert old(outputPorts[..])[o] == outputPorts[..][o];
    }
    r := Ok(bytes.value);
  }

  /** Any other schedule gives every coder the same value. */
  lemma {:induction false} ScheduleIrrelevant(f: Folder, g: Folder, owners: seq<nat>, packs: seq<Bytes>, d: Decoder,
                                              i: nat)
    requires Good(f, owners) && Good(g, owners) && g == f.(order := g.order) && |packs| == |f.packed| && i < |f.coders|
    ensures Eval(f, owners, packs, d, i) == Eval(g, owners, packs, d, i)
    decreases Rank(f, owners, i), 2, 0
  {
    hide Good, EvalInputs;
    SameInputs(f, g, owners, packs, d, i, f.coders[i].inputCount);
  }

  lemma {:induction false} SameInputs(f: Folder, g: Folder, owners: seq<nat>, packs: seq<Bytes>, d: Decoder, i: nat,
                                      k: nat)
    requires Good(f, owners) && Good(g, owners) && g == f.(order := g.order) && |packs| == |f.packed| && i < |f.coders|
    requires k <= f.coders[i].inputCount
    ensures EvalInputs(f, owners, packs, d, i, k) == EvalInputs(g, owners, packs, d, i, k)
    decreases Rank(f, owners, i), 1, k
  {
    hide Good, EvalPort, EvalInputs;
    if k == 0 {
      NoInputs(f, owners, packs, d, i);
      NoInputs(g, owners, packs, d, i);
    } else {
      var p := f.coders[i].inputStart + k - 1;
      PortOwned(f, owners, i, p);
      PortOwned(g, owners, i, p);
      SameInputs(f, g, owners, packs, d, i, k - 1);
      SamePort(f, g, owners, packs, d, i, p);
      LastInput(f, owners, packs, d, i, k);
      LastInput(g, owners, packs, d, i, k);
    }
  }

  lemma NoInputs(f: Folder, owners: seq<nat>, packs: seq<Bytes>, d: Decoder, i: nat)
    requires Good(f, owners) && |packs| == |f.packed| && i < |f.coders|
    ensures EvalInputs(f, owners, packs, d, i, 0) == Ok([])
  {
    hide Good;
  }

  lemma LastInput(f: Folder, owners: seq<nat>, packs: seq<Bytes>, d: Decoder, i: nat, k: nat)
    requires Good(f, owners) && |packs| == |f.packed| && i < |f.coders| && 0 < k <= f.coders[i].inputCount
    requires f.coders[i].inputStart + k - 1 < |owners|
    ensures var init, v := EvalInputs(f, owners, packs, d, i, k - 1),
                           EvalPort(f, owners, packs, d, f.coders[i].inputStart + k - 1);
            EvalInputs(f, owners, packs, d, i, k) ==
            if init.Err? then Err(init.error) else if v.Err? then Err(v.error) else Ok(init.value + [v.value])
  {
    hide Good, EvalPort;
  }

  lemma {:induction false} SamePort(f: Folder, g: Folder, owners: seq<nat>, packs: seq<Bytes>, d: Decoder, i: nat,
                                    p: nat)
    requires Good(f, owners) && Good(g, owners) && g == f.(order := g.order) && |packs| == |f.packed|
    requires i < |f.coders| && p < |owners| && owners[p] == i
    ensures EvalPort(f, owners, packs, d, p) == EvalPort(g, owners, packs, d, p)
    decreases Rank(f, owners, i), 0, 0
  {
    SameSource(f, g, owners, p);
    hide Good, SourceOf, Eval;
    var s := SourceOf(f, owners, p);
    if s.FromCoder? {
      ScheduleIrrelevant(f, g, owners, packs, d, s.coder);
    }
  }

  lemma PortOwned(f: Folder, owners: seq<nat>, i: nat, p: nat)
    requires Good(f, owners) && i < |f.coders|
    requires f.coders[i].inputStart <= p < f.coders[i].inputStart + f.coders[i].inputCount
    ensures p < |owners| && owners[p] == i
  {
  }

  lemma SameSource(f: Folder, g: Folder, owners: seq<nat>, p: nat)
    requires Good(f, owners) && Good(g, owners) && g == f.(order := g.order) && p < |owners|
    ensures SourceOf(f, owners, p) == SourceOf(g, owners, p)
  {
    hide IsOrder, PackedOk, RootOk, PairsOk, Owns, Ranged;
  }
}
