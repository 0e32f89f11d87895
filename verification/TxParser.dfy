/** The parser of core/bitcoin/BRTransaction.c: an offset moves over the buffer, and everything read
    beyond the end is zero until the final check rejects the transaction. */
module TxParser {
  import opened Blocks
  import opened Positional
  import opened TxCodec
  import opened VarInt

  method ParseInput(buf: seq<Byte>, off0: nat, witnessFlag: bool, isScript: seq<Byte> -> bool)
    returns (input: Input, off: nat, signed: bool)
    ensures InputRead(input, off) == ReadInput(buf, off0, witnessFlag, isScript)
    ensures off >= off0 && (off <= |buf| ==> signed == input.signature.Some?)
  {
    hide DecodedAt, NumberAt;
    off, signed := off0, true;
    var txHash: Hash256 := if off + 32 <= |buf| then buf[off..off + 32] else seq(32, _ => 0);
    off := off + 32;
    var index := Number32At(buf, off);
    off := off + 4;
    var length := DecodedAt(buf, off);
    off := off + length.length;
    var sLen := length.value;
    var script, signature: Option<seq<Byte>>, amount: U64 := None, None, 0;
    if off + sLen <= |buf| && isScript(buf[off..off + sLen]) {
      script := Some(buf[off..off + sLen]);
      amount := NumberAt(buf, off + sLen, 8);
      off := off + 8;
      signed := false;
    } else if off + sLen <= |buf| {
      signature := Some(buf[off..off + sLen]);
    }
    off := off + sLen;
    var stack: Option<seq<Byte>> := if !witnessFlag then Some([]) else None;
    var sequence := Number32At(buf, off);
    off := off + 4;
    input := Input(txHash, index, amount, script, signature, stack, sequence);
  }

  lemma Push<T>(a: seq<T>, x: T, b: seq<T>)
    ensures a + ([x] + b) == a + [x] + b
  {}

  lemma SignedPush(inputs: seq<Input>, input: Input)
    ensures IsSigned(inputs + [input]) <==> IsSigned(inputs) && input.signature.Some?
  {
    assert (inputs + [input])[|inputs|] == input;
    assert forall i :: 0 <= i < |inputs| ==> (inputs + [input])[i] == inputs[i];
  }

  method ParseInputs(buf: seq<Byte>, off0: nat, inCount: nat, witnessFlag: bool, isScript: seq<Byte> -> bool)
    returns (inputs: seq<Input>, off: nat, isSigned: bool)
    ensures InputsRead(inputs, off) == ReadInputs(buf, off0, inCount, witnessFlag, isScript)
    ensures off <= |buf| ==> (isSigned <==> IsSigned(inputs))
  {
    hide ReadInput;
    inputs, off, isSigned := [], off0, true;
    var i := 0;
    while off <= |buf| && i < inCount
      invariant i <= inCount
      invariant off <= |buf| ==> (isSigned <==> IsSigned(inputs))
      invariant ReadInputs(buf, off0, inCount, witnessFlag, isScript)
             == Before(inputs, ReadInputs(buf, off, inCount - i, witnessFlag, isScript))
    {
      var input, signed;
      input, off, signed := ParseInput(buf, off, witnessFlag, isScript);
      if !signed { isSigned := false; }
      SignedPush(inputs, input);
      Push(inputs, input, ReadInputs(buf, off, inCount - i - 1, witnessFlag, isScript).inputs);
      inputs := inputs + [input];
      i := i + 1;
    }
    assert inputs + [] == inputs;
  }

  function Before(inputs: seq<Input>, read: InputsRead): InputsRead {
    InputsRead(inputs + read.inputs, read.off)
  }

  method ParseOutputs(buf: seq<Byte>, off0: nat, outCount: nat) returns (outputs: seq<Output>, off: nat)
    ensures OutputsRead(outputs, off) == ReadOutputs(buf, off0, outCount)
  {
    hide DecodedAt, NumberAt;
    outputs, off := [], off0;
    var i := 0;
    while off <= |buf| && i < outCount
      invariant i <= outCount
      invariant ReadOutputs(buf, off0, outCount)
             == OutputsRead(outputs + ReadOutputs(buf, off, outCount - i).outputs, ReadOutputs(buf, off, outCount - i).off)
    {
      ghost var first := ReadOutput(buf, off);
      var amount := NumberAt(buf, off, 8);
      off := off + 8;
      var length := DecodedAt(buf, off);
      off := off + length.length;
      var script: seq<Byte> := [];
      if off + length.value <= |buf| { script := buf[off..off + length.value]; }
      off := off + length.value;
      assert first == OutputRead(Output(amount, script), off);
      Push(outputs, first.output, ReadOutputs(buf, off, outCount - i - 1).outputs);
      outputs := outputs + [Output(amount, script)];
      i := i + 1;
    }
    assert outputs + [] == outputs;
  }

  /** The length of count stack items; beyond the end of the buffer they are empty. */
  method StackLength(buf: seq<Byte>, off: nat, count: nat) returns (sLen: nat)
    ensures off + sLen == SkipItems(buf, off, count)
  {
    hide DecodedAt;
    sLen := 0;
    var j := 0;
    while j < count
      invariant j <= count && SkipItems(buf, off + sLen, count - j) == SkipItems(buf, off, count)
    {
      var length := DecodedAt(buf, off + sLen);
      sLen := sLen + length.value;
      sLen := sLen + length.length;
      j := j + 1;
    }
  }

  method ParseWitness(buf: seq<Byte>, off0: nat, input0: Input) returns (input: Input, off: nat)
    ensures InputRead(input, off) == ReadWitness(buf, off0, input0)
  {
    hide DecodedAt;
    input, off := input0, off0;
    var count := DecodedAt(buf, off);
    off := off + count.length;
    var sLen := StackLength(buf, off, count.value);
    if off + sLen <= |buf| { input := input.(stack := Some(buf[off..off + sLen])); }
    off := off + sLen;
  }

  method ParseWitnesses(buf: seq<Byte>, off0: nat, inputs0: seq<Input>) returns (inputs: seq<Input>, off: nat)
    ensures InputsRead(inputs, off) == ReadWitnesses(buf, off0, inputs0)
  {
    hide ReadWitness;
    inputs, off := inputs0, off0;
    var i := 0;
    while off <= |buf| && i < |inputs|
      invariant i <= |inputs| == |inputs0| && inputs[i..] == inputs0[i..]
      invariant ReadWitnesses(buf, off0, inputs0) == Before(inputs[..i], ReadWitnesses(buf, off, inputs0[i..]))
    {
      var input;
      assert inputs0[i..][0] == inputs[i..][0] && inputs0[i..][1..] == inputs0[i + 1..];
      input, off := ParseWitness(buf, off, inputs[i]);
      Push(inputs[..i], input, ReadWitnesses(buf, off, inputs0[i + 1..]).inputs);
      inputs := inputs[i := input];
      assert inputs[..i + 1] == inputs[..i] + [input];
      i := i + 1;
    }
    assert inputs[..i] + inputs[i..] == inputs;
  }

  lemma {:induction false} WitnessesKeepSignatures(buf: seq<Byte>, off: nat, inputs: seq<Input>)
    ensures IsSigned(ReadWitnesses(buf, off, inputs).inputs) <==> IsSigned(inputs)
    decreases inputs
  {
    hide ReadWitness;
    if inputs != [] && off <= |buf| {
      var first := ReadWitness(buf, off, inputs[0]);
      var others := ReadWitnesses(buf, first.off, inputs[1..]);
      WitnessesKeepSignatures(buf, first.off, inputs[1..]);
      SignedCons(first.input, others.inputs);
      SignedCons(inputs[0], inputs[1..]);
      assert [inputs[0]] + inputs[1..] == inputs;
    }
  }

  lemma SignedCons(input: Input, inputs: seq<Input>)
    ensures IsSigned([input] + inputs) <==> input.signature.Some? && IsSigned(inputs)
  {
    assert forall i :: 0 <= i < |inputs| ==> ([input] + inputs)[i + 1] == inputs[i];
    assert ([input] + inputs)[0] == input;
  }

  method ParseHeader(buf: seq<Byte>) returns (witnessFlag: bool, inCount: nat, off: nat)
    ensures Header(witnessFlag, inCount, off) == ReadHeader(buf)
  {
    off := 4;
    var flag := 0;
    var count := DecodedAt(buf, off);
    off := off + count.length;
    if count.value == 0 && off + 1 <= |buf| {
      flag := buf[off];
      off := off + 1;
    }
    if flag != 0 {
      count := DecodedAt(buf, off);
      off := off + count.length;
    }
    witnessFlag, inCount := flag != 0, count.value;
  }

  method Parse(buf: seq<Byte>, isScript: seq<Byte> -> bool, sha: seq<Byte> -> Hash) returns (r: Option<Identified>)
    ensures r == Parsed(buf, isScript, sha)
  {
    hide ReadHeader, ReadInputs, ReadOutputs, ReadWitnesses, DecodedAt, NumberAt, IsSigned;
    var version := Number32At(buf, 0);
    var witnessFlag, inCount, off := ParseHeader(buf);
    var inputs, outputs, isSigned;
    inputs, off, isSigned := ParseInputs(buf, off, inCount, witnessFlag, isScript);
    var outCount := DecodedAt(buf, off);
    off := off + outCount.length;
    outputs, off := ParseOutputs(buf, off, outCount.value);
    var witnessOff := off;
    WitnessesKeepSignatures(buf, off, inputs);
    if witnessFlag { inputs, off := ParseWitnesses(buf, off, inputs); }
    var lockTime := Number32At(buf, off);
    off := off + 4;
    if inCount == 0 || off > |buf| { return None; }
    var txHash, wtxHash: Option<Hash> := None, None;
    if isSigned && witnessFlag {
      wtxHash := Some(sha(buf[..off]));
      txHash := Some(sha(LittleEndian(version, 4) + buf[6..witnessOff] + LittleEndian(lockTime, 4)));
      assert buf[..witnessOff][6..] == buf[6..witnessOff];
    } else if isSigned {
      txHash := Some(sha(buf[..off]));
      wtxHash := txHash;
    }
    r := Some(Identified(Transaction(version, inputs, outputs, lockTime), txHash, wtxHash));
  }
}
