/** The output buffer and the operation loop as the program runs them. */
module LzmaDecoder {
  import opened Prelude
  import opened Lz77
  import opened LzmaRange
  import opened LzmaOperations
  import opened LzmaMachine
  import S = LzmaStream

  class Output {
    var bytes: seq<byte>
    const maximum: nat
    const dictionarySize: nat
    var dictionaryStart: nat

    ghost function Limits(): S.Limits
      reads this
    {
      S.Limits(maximum, dictionarySize, dictionaryStart)
    }

    constructor (maximum: nat, dictionarySize: nat)
      ensures bytes == [] && dictionaryStart == 0
      ensures this.maximum == maximum && this.dictionarySize == dictionarySize
    {
      this.maximum, this.dictionarySize := maximum, dictionarySize;
      bytes, dictionaryStart := [], 0;
    }

    method ResetDictionary()
      modifies `dictionaryStart
      ensures dictionaryStart == |bytes|
    {
      dictionaryStart := |bytes|;
    }

    method Push(b: byte) returns (r: Result<()>)
      modifies `bytes
      ensures var o := S.Push(old(bytes), Limits(), b);
              (r.Ok? <==> o.Ok?) && bytes == if o.Ok? then o.value else old(bytes)
    {
      if |bytes| + 1 > maximum {
        return Err(LimitExceeded);
      }
      bytes := bytes + [b];
      r := Ok(());
    }

    method ExtendUncompressed(data: seq<byte>) returns (r: Result<()>)
      modifies `bytes
      ensures r.Ok? <==> |old(bytes)| + |data| <= maximum
      ensures bytes == if r.Ok? then old(bytes) + data else old(bytes)
    {
      if |bytes| + |data| > maximum {
        return Err(LimitExceeded);
      }
      bytes := bytes + data;
      r := Ok(());
    }

    /** Byte by byte, so that a copy may read what it has just written. */
    method CopyMatch(distance: nat, length: nat) returns (r: Result<()>)
      modifies `bytes
      ensures var o := S.CopyMatch(old(bytes), Limits(), distance, length);
              (r.Ok? <==> o.Ok?) && bytes == if o.Ok? then o.value else old(bytes)
    {
      if distance == 0 || distance > dictionarySize || distance > |bytes| - dictionaryStart {
        return Err(Format);
      }
      if |bytes| + length > maximum {
        return Err(LimitExceeded);
      }
      ghost var before := bytes;
      for k := 0 to length
        invariant bytes == Copied(before, distance, k)
      {
        CopiedNext(before, distance, k);
        bytes := bytes + [bytes[|bytes| - distance]];
      }
      r := Ok(());
    }

    method Perform(op: Operation, target: Option<nat>) returns (r: Result<()>)
      requires !op.End? && (op.Match? ==> op.length >= 1)
      modifies `bytes
      ensures var o := S.Perform(op, old(bytes), Limits(), target);
              (r.Ok? <==> o.Ok?) && (r.Ok? ==> bytes == o.value)
    {
      match op {
        case Literal(b) =>
          r := Push(b);
        case Match(distance, length) =>
          if target.Some? && |bytes| + length > target.value {
            return Err(Format);
          }
          r := CopyMatch(distance, length);
      }
    }
  }

  /** `decode_stream`: operations until the target size or the end marker. */
  method DecodeStream(state: LzmaState, input: seq<byte>, output: Output, increment: Option<nat>, requireEnd: bool)
    returns (r: Result<()>)
    requires state.Valid()
    modifies state, output`bytes
    ensures var x := S.DecodeStream(old(state.View()), input, old(output.bytes), output.Limits(), increment,
                                    requireEnd);
            && (r.Ok? <==> x.Ok?)
            && (r.Ok? ==> state.Valid() && x.value == S.Ended(state.View(), output.bytes))
  {
    hide ModelOk, DecodeOperation, S.Perform, Keeps, Start;
    ghost var m0, out0, w := state.View(), output.bytes, output.Limits();
    var target: Option<nat> := if increment.Some? then Some(|output.bytes| + increment.value) else None;
    if target.Some? && target.value > output.maximum {
      return Err(LimitExceeded);
    }
    var decoder := RangeDecoder.New(input);
    if decoder.Err? {
      return Err(decoder.error);
    }
    var range := decoder.value;
    ghost var whole := S.Run(m0, out0, w, range.View(), target, requireEnd);
    while true
      invariant range.Valid() && state.Valid() && fresh(range)
      invariant output.Limits() == w
      invariant whole == S.Run(state.View(), output.bytes, w, range.View(), target, requireEnd)
      decreases w.maximum - |output.bytes|
    {
      if target == Some(|output.bytes|) {
        return Ok(());
      }
      S.OperationLengthIfOk(state.View(), output.bytes, range.View());
      var op := state.Decode(range, output.bytes);
      if op.Err? {
        return Err(op.error);
      }
      if op.value.End? {
        return FinishStream(state, range, |output.bytes|, target, requireEnd);
      }
      var done := output.Perform(op.value, target);
      if done.Err? {
        return Err(done.error);
      }
    }
  }

  function FinishStream(state: LzmaState, range: RangeDecoder, position: nat, target: Option<nat>, requireEnd: bool)
    : Result<()>
    reads range
  {
    if !range.PossiblyAtEnd() then Err(Format)
    else if !range.IsFinished() then Err(Format)
    else if target.Some? && position != target.value then Err(Format)
    else if requireEnd || target.Some? then Ok(())
    else Err(Format)
  }

  method DecodeLzma(input: seq<byte>, properties: seq<byte>, expected: Option<nat>, maximum: nat)
    returns (r: Result<seq<byte>>)
    ensures var x := S.DecodeLzma(input, properties, expected, maximum);
            (r.Ok? <==> x.Ok?) && (r.Ok? ==> r.value == x.value)
  {
    hide FreshModel, ModelOk, S.DecodeStream;
    if |properties| != 5 {
      return Err(Format);
    }
    var dictionary := Max(LittleEndian(properties[1..]), 1);
    var p :- S.PropertiesFromByte(properties[0]);
    var state := new LzmaState(p.lc, p.lp, p.pb);
    if expected.Some? && expected.value > maximum {
      return Err(LimitExceeded);
    }
    var output := new Output(maximum, dictionary);
    var done := DecodeStream(state, input, output, expected, expected.None?);
    r := if done.Ok? then Ok(output.bytes) else Err(done.error);
  }
}
