/** Everything the parser accepts as a signed transaction survives being serialized again. */
module TxReparse {
  import opened Blocks
  import opened Positional
  import opened TxCodec
  import opened VarInt

  /** An integer that ends before end is read the same from the slice. */
  lemma DecodeWithin(buf: seq<Byte>, start: nat, end: nat, woff: nat)
    requires start + woff + DecodedAt(buf, start + woff).length <= end <= |buf|
    ensures DecodedAt(buf[start..end], woff) == DecodedAt(buf, start + woff)
  {
    var w, n := buf[start..end], DecodedAt(buf, start + woff).length;
    assert w[woff] == buf[start + woff];
    var a, b := w[woff + 1..woff + n], buf[start + woff + 1..start + woff + n];
    forall k | 0 <= k < |a| ensures a[k] == b[k] {
      assert w[woff + 1 + k] == buf[start + woff + 1 + k];
    }
    assert a == b;
  }

  /** What the parser cuts out as a witness is a well-formed stack. */
  lemma {:induction false} SkippedIsStack(buf: seq<Byte>, start: nat, end: nat, woff: nat, count: nat)
    requires start + woff <= end == SkipItems(buf, start + woff, count) <= |buf|
    ensures Stack(buf[start..end], woff)
    decreases count
  {
    hide DecodedAt;
    if count > 0 {
      var next := woff + ItemLength(buf, start + woff);
      assert end == SkipItems(buf, start + next, count - 1);
      DecodeWithin(buf, start, end, woff);
      SkippedIsStack(buf, start, end, next, count - 1);
    }
  }

  /** What the parser makes of an input before the witnesses. */
  ghost predicate Readable(input: Input, limit: nat, witnessFlag: bool, isScript: seq<Byte> -> bool) {
    && |ScriptField(input)| <= limit && input.stack == (if witnessFlag then None else Some([]))
    && (input.signature.Some? ==> Blank(input) == input && !isScript(input.signature.value))
  }

  lemma {:induction false} InputsReadable(buf: seq<Byte>, off: nat, n: nat, witnessFlag: bool, isScript: seq<Byte> -> bool)
    requires ReadInputs(buf, off, n, witnessFlag, isScript).off <= |buf|
    ensures var inputs := ReadInputs(buf, off, n, witnessFlag, isScript).inputs;
            |inputs| == n && forall i :: 0 <= i < n ==> Readable(inputs[i], |buf|, witnessFlag, isScript)
    decreases n
  {
    if n > 0 {
      var first := ReadInput(buf, off, witnessFlag, isScript);
      InputsReadable(buf, first.off, n - 1, witnessFlag, isScript);
      InputReadable(buf, off, witnessFlag, isScript);
    }
  }

  lemma InputReadable(buf: seq<Byte>, off: nat, witnessFlag: bool, isScript: seq<Byte> -> bool)
    ensures Readable(ReadInput(buf, off, witnessFlag, isScript).input, |buf|, witnessFlag, isScript)
  {
    hide DecodedAt, NumberAt;
  }

  lemma {:induction false} OutputsReadable(buf: seq<Byte>, off: nat, n: nat)
    requires ReadOutputs(buf, off, n).off <= |buf|
    ensures var outputs := ReadOutputs(buf, off, n).outputs;
            |outputs| == n && forall i :: 0 <= i < n ==> |outputs[i].script| <= |buf|
    decreases n
  {
    hide DecodedAt, NumberAt;
    if n > 0 { OutputsReadable(buf, ReadOutput(buf, off).off, n - 1); }
  }

  /** A signed input ready to be written again. */
  ghost predicate Writable(input: Input, limit: nat, isScript: seq<Byte> -> bool) {
    && input.signature.Some? && |input.signature.value| <= limit && !isScript(input.signature.value)
    && Blank(input) == input && input.stack.Some? && |input.stack.value| <= limit && Stack(input.stack.value, 0)
  }

  lemma WitnessWritable(buf: seq<Byte>, off: nat, input: Input, isScript: seq<Byte> -> bool)
    requires Readable(input, |buf|, true, isScript) && input.signature.Some? && ReadWitness(buf, off, input).off <= |buf|
    ensures Writable(ReadWitness(buf, off, input).input, |buf|, isScript)
  {
    hide DecodedAt, SkipItems;
    var count := DecodedAt(buf, off);
    var start := off + count.length;
    var end := SkipItems(buf, start, count.value);
    SkippedIsStack(buf, start, end, 0, count.value);
  }

  lemma {:induction false} WitnessesWritable(buf: seq<Byte>, off: nat, inputs: seq<Input>, isScript: seq<Byte> -> bool)
    requires forall i :: 0 <= i < |inputs| ==> Readable(inputs[i], |buf|, true, isScript) && inputs[i].signature.Some?
    requires ReadWitnesses(buf, off, inputs).off <= |buf|
    ensures var r := ReadWitnesses(buf, off, inputs).inputs;
            |r| == |inputs| && forall i :: 0 <= i < |r| ==> Writable(r[i], |buf|, isScript)
    decreases inputs
  {
    hide ReadWitness, Writable, Readable;
    if inputs != [] {
      WitnessWritable(buf, off, inputs[0], isScript);
      WitnessesWritable(buf, ReadWitness(buf, off, inputs[0]).off, inputs[1..], isScript);
    }
  }

  lemma {:induction false} WitnessesSigned(buf: seq<Byte>, off: nat, inputs: seq<Input>)
    requires IsSigned(ReadWitnesses(buf, off, inputs).inputs)
    ensures forall i :: 0 <= i < |inputs| ==> inputs[i].signature.Some?
    decreases inputs
  {
    hide ReadWitness;
    if inputs != [] && off <= |buf| {
      var first := ReadWitness(buf, off, inputs[0]);
      var r := ReadWitnesses(buf, first.off, inputs[1..]).inputs;
      assert ([first.input] + r)[0] == first.input;
      assert IsSigned(r) by {
        forall i | 0 <= i < |r| ensures r[i].signature.Some? { assert ([first.input] + r)[i + 1] == r[i]; }
      }
      WitnessesSigned(buf, first.off, inputs[1..]);
    }
  }

  lemma {:induction false} BlankAllSame(inputs: seq<Input>)
    requires forall i :: 0 <= i < |inputs| ==> Blank(inputs[i]) == inputs[i]
    ensures BlankAll(inputs) == inputs
  {
    if inputs != [] { BlankAllSame(inputs[1..]); }
  }

  lemma ParsedWritable(buf: seq<Byte>, isScript: seq<Byte> -> bool, sha: seq<Byte> -> Hash)
    requires |buf| < SIZE_LIMIT && Parsed(buf, isScript, sha).Some?
    requires IsSigned(Parsed(buf, isScript, sha).value.tx.inputs)
    ensures var tx := Parsed(buf, isScript, sha).value.tx;
            && tx.inputs != [] && Sized(tx)
            && forall i :: 0 <= i < |tx.inputs| ==> Writable(tx.inputs[i], |buf|, isScript)
  {
    hide DecodedAt, NumberAt, ReadInputs, ReadOutputs, ReadWitnesses, ReadHeader;
    var header := ReadHeader(buf);
    var ins := ReadInputs(buf, header.off, header.inCount, header.witnessFlag, isScript);
    var outCount := DecodedAt(buf, ins.off);
    InputsReadable(buf, header.off, header.inCount, header.witnessFlag, isScript);
    OutputsReadable(buf, ins.off + outCount.length, outCount.value);
    HeaderCount(buf);
    if header.witnessFlag {
      var outs := ReadOutputs(buf, ins.off + outCount.length, outCount.value);
      WitnessesSigned(buf, outs.off, ins.inputs);
      WitnessesWritable(buf, outs.off, ins.inputs, isScript);
    }
  }

  lemma HeaderCount(buf: seq<Byte>)
    ensures ReadHeader(buf).inCount < SIZE_LIMIT
  {
    hide DecodedAt;
  }

  /** Serializing what was parsed and parsing it again gives the same transaction, now identified by its
      canonical serializations. */
  lemma ParseSerializeParse(buf: seq<Byte>, isScript: seq<Byte> -> bool, sha: seq<Byte> -> Hash)
    requires |buf| < SIZE_LIMIT && Parsed(buf, isScript, sha).Some?
    requires IsSigned(Parsed(buf, isScript, sha).value.tx.inputs)
    ensures var tx := Parsed(buf, isScript, sha).value.tx;
            Sized(tx)
            && Parsed(Serialized(tx), isScript, sha) == Some(Identified(tx, Some(sha(Base(tx))), Some(sha(Serialized(tx)))))
  {
    hide Parsed, Serialized, Base, Sized;
    var tx := Parsed(buf, isScript, sha).value.tx;
    ParsedWritable(buf, isScript, sha);
    BlankAllSame(tx.inputs);
    ParseSerialize(tx, isScript, sha, []);
    assert Serialized(tx) + [] == Serialized(tx);
  }
}
