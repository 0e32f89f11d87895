/** The transaction wire format of core/bitcoin/BRTransaction.c: what the serializer writes for a whole
    transaction, what the parser reads, and that the second undoes the first. */
module TxCodec {
  import opened Blocks
  import opened Positional
  import opened VarInt

  type Hash256 = s: seq<Byte> | |s| == 32 witness seq(32, _ => 0)

  /** Scripts, signatures and witnesses are None where the source has a null pointer. */
  datatype Input = Input(
    txHash: Hash256,
    index: U32,
    amount: U64,
    script: Option<seq<Byte>>,
    signature: Option<seq<Byte>>,
    stack: Option<seq<Byte>>,
    sequence: U32)

  datatype Output = Output(amount: U64, script: seq<Byte>)

  datatype Transaction = Transaction(version: U32, inputs: seq<Input>, outputs: seq<Output>, lockTime: U32)

  const SIZE_LIMIT: nat := 0x1_0000_0000_0000_0000

  function OrEmpty<T>(o: Option<seq<T>>): seq<T> {
    if o.Some? then o.value else []
  }

  // ---- Witness stacks: items with a length prefix each

  /** Length of the item at woff, prefix included. */
  function ItemLength(w: seq<Byte>, woff: nat): (n: nat)
    ensures n > 0
  {
    DecodedAt(w, woff).length + DecodedAt(w, woff).value
  }

  /** From woff on, the items fill the witness exactly. */
  ghost predicate Stack(w: seq<Byte>, woff: nat)
    decreases |w| - woff
  {
    woff == |w| || (woff < |w| && Stack(w, woff + ItemLength(w, woff)))
  }

  function Items(w: seq<Byte>, woff: nat): (n: nat)
    ensures woff <= |w| ==> n <= |w| - woff
    decreases |w| - woff
  {
    if woff >= |w| then 0 else 1 + Items(w, woff + ItemLength(w, woff))
  }

  // ---- What the serializer writes

  /** The script sits in the signature's place while there is no signature. */
  function ScriptField(input: Input): seq<Byte> {
    if input.signature.Some? then input.signature.value else OrEmpty(input.script)
  }

  /** Lengths are 64-bit in the source. */
  predicate Sized(tx: Transaction) {
    && |tx.inputs| < SIZE_LIMIT && |tx.outputs| < SIZE_LIMIT
    && (forall i :: 0 <= i < |tx.inputs| ==>
          |ScriptField(tx.inputs[i])| < SIZE_LIMIT && |OrEmpty(tx.inputs[i].stack)| < SIZE_LIMIT)
    && (forall i :: 0 <= i < |tx.outputs| ==> |tx.outputs[i].script| < SIZE_LIMIT)
  }

  function InputData(input: Input): seq<Byte>
    requires |ScriptField(input)| < SIZE_LIMIT
  {
    input.txHash + LittleEndian(input.index, 4) + Encoded(|ScriptField(input)|) + ScriptField(input)
    + (if input.signature.None? && input.amount != 0 then LittleEndian(input.amount, 8) else [])
    + LittleEndian(input.sequence, 4)
  }

  function InputsData(inputs: seq<Input>): seq<Byte>
    requires forall i :: 0 <= i < |inputs| ==> |ScriptField(inputs[i])| < SIZE_LIMIT
  {
    if inputs == [] then [] else InputData(inputs[0]) + InputsData(inputs[1..])
  }

  function OutputData(output: Output): seq<Byte>
    requires |output.script| < SIZE_LIMIT
  {
    LittleEndian(output.amount, 8) + Encoded(|output.script|) + output.script
  }

  function OutputsData(outputs: seq<Output>): seq<Byte>
    requires forall i :: 0 <= i < |outputs| ==> |outputs[i].script| < SIZE_LIMIT
  {
    if outputs == [] then [] else OutputData(outputs[0]) + OutputsData(outputs[1..])
  }

  function WitnessData(w: seq<Byte>): seq<Byte>
    requires |w| < SIZE_LIMIT
  {
    Encoded(Items(w, 0)) + w
  }

  function WitnessesData(inputs: seq<Input>): seq<Byte>
    requires forall i :: 0 <= i < |inputs| ==> |OrEmpty(inputs[i].stack)| < SIZE_LIMIT
  {
    if inputs == [] then [] else WitnessData(OrEmpty(inputs[0].stack)) + WitnessesData(inputs[1..])
  }

  predicate HasWitness(inputs: seq<Input>) {
    exists i :: 0 <= i < |inputs| && |OrEmpty(inputs[i].stack)| > 0
  }

  /** Counts, inputs and outputs: what both serializations share. */
  function Body(tx: Transaction): seq<Byte>
    requires Sized(tx)
  {
    Encoded(|tx.inputs|) + InputsData(tx.inputs) + Encoded(|tx.outputs|) + OutputsData(tx.outputs)
  }

  /** The serialization without witnesses, which the transaction id is the hash of. */
  function Base(tx: Transaction): seq<Byte>
    requires Sized(tx)
  {
    LittleEndian(tx.version, 4) + Body(tx) + LittleEndian(tx.lockTime, 4)
  }

  /** The whole serialized transaction (BIP144). */
  function Serialized(tx: Transaction): seq<Byte>
    requires Sized(tx)
  {
    if HasWitness(tx.inputs) then
      LittleEndian(tx.version, 4) + [0, 1] + Body(tx) + WitnessesData(tx.inputs) + LittleEndian(tx.lockTime, 4)
    else Base(tx)
  }

  const EXAMPLE_OUTPUT := Output(1000, [0x6a])

  function ExampleInput(id: Hash256): Input {
    Input(id, 1, 0, None, Some([0x51]), Some([1, 7]), 0xffff_fffe)
  }

  /** The order of the fields, on a transaction with one signed input, one witness item and one output. */
  lemma LayoutExample(id: Hash256)
    ensures var tx := Transaction(2, [ExampleInput(id)], [EXAMPLE_OUTPUT], 5);
         Sized(tx) && Serialized(tx) ==
           [2, 0, 0, 0] + [0, 1] + ([1] + (id + [1, 0, 0, 0] + [1, 0x51] + [0xfe, 0xff, 0xff, 0xff]) + [1] + [0xe8, 3, 0, 0, 0, 0, 0, 0, 1, 0x6a])
           + [1, 1, 7] + [5, 0, 0, 0]
  {
    ExampleNumbers();
    OneItem();
    ExampleParts(id);
    hide LittleEndian, Items, InputData, OutputData, WitnessData;
    OneEach([ExampleInput(id)], [EXAMPLE_OUTPUT]);
  }

  lemma OneEach(inputs: seq<Input>, outputs: seq<Output>)
    requires |inputs| == |outputs| == 1
    requires |ScriptField(inputs[0])| < SIZE_LIMIT && |outputs[0].script| < SIZE_LIMIT && |OrEmpty(inputs[0].stack)| < SIZE_LIMIT
    ensures InputsData(inputs) == InputData(inputs[0]) && OutputsData(outputs) == OutputData(outputs[0])
    ensures WitnessesData(inputs) == WitnessData(OrEmpty(inputs[0].stack))
  {
    hide InputData, OutputData, WitnessData;
    assert InputsData(inputs[1..]) == [] && OutputsData(outputs[1..]) == [] && WitnessesData(inputs[1..]) == [];
  }

  lemma ExampleNumbers()
    ensures LittleEndian(2, 4) == [2, 0, 0, 0] && LittleEndian(1, 4) == [1, 0, 0, 0] && LittleEndian(5, 4) == [5, 0, 0, 0]
    ensures LittleEndian(0xffff_fffe, 4) == [0xfe, 0xff, 0xff, 0xff]
    ensures LittleEndian(1000, 8) == [0xe8, 3, 0, 0, 0, 0, 0, 0]
  {}

  lemma ExampleParts(id: Hash256)
    ensures InputData(ExampleInput(id)) == id + [1, 0, 0, 0] + [1, 0x51] + [0xfe, 0xff, 0xff, 0xff]
    ensures OutputData(EXAMPLE_OUTPUT) == [0xe8, 3, 0, 0, 0, 0, 0, 0, 1, 0x6a] && WitnessData([1, 7]) == [1, 1, 7]
  {
    ExampleNumbers();
    OneItem();
    hide LittleEndian, Items;
  }

  lemma OneItem()
    ensures Items([1, 7], 0) == 1
  {
    hide LittleEndian, FromLittleEndian;
    assert DecodedAt([1, 7], 0).length == 1 && DecodedAt([1, 7], 0).value == 1;
  }

  // ---- What the parser reads: an offset beyond the end of the buffer means that it ran out

  datatype InputRead = InputRead(input: Input, off: nat)

  function ReadInput(buf: seq<Byte>, off: nat, witnessFlag: bool, isScript: seq<Byte> -> bool): (r: InputRead)
    ensures r.off >= off
  {
    var txHash: Hash256 := if off + 32 <= |buf| then buf[off..off + 32] else seq(32, _ => 0);
    var index := Number32At(buf, off + 32);
    var length := DecodedAt(buf, off + 36);
    var field := off + 36 + length.length;
    var end := field + length.value;
    var stack := if witnessFlag then None else Some([]);
    if end <= |buf| && isScript(buf[field..end]) then
      InputRead(Input(txHash, index, NumberAt(buf, end, 8), Some(buf[field..end]), None, stack, Number32At(buf, end + 8)),
                end + 12)
    else
      var signature := if end <= |buf| then Some(buf[field..end]) else None;
      InputRead(Input(txHash, index, 0, None, signature, stack, Number32At(buf, end)), end + 4)
  }

  datatype InputsRead = InputsRead(inputs: seq<Input>, off: nat)

  function ReadInputs(buf: seq<Byte>, off: nat, n: nat, witnessFlag: bool, isScript: seq<Byte> -> bool): (r: InputsRead)
    ensures r.off >= off
    decreases n
  {
    if n == 0 || off > |buf| then InputsRead([], off) else
    var first := ReadInput(buf, off, witnessFlag, isScript);
    var others := ReadInputs(buf, first.off, n - 1, witnessFlag, isScript);
    InputsRead([first.input] + others.inputs, others.off)
  }

  datatype OutputRead = OutputRead(output: Output, off: nat)

  function ReadOutput(buf: seq<Byte>, off: nat): (r: OutputRead)
    ensures r.off >= off
  {
    var length := DecodedAt(buf, off + 8);
    var field := off + 8 + length.length;
    var end := field + length.value;
    OutputRead(Output(NumberAt(buf, off, 8), if end <= |buf| then buf[field..end] else []), end)
  }

  datatype OutputsRead = OutputsRead(outputs: seq<Output>, off: nat)

  function ReadOutputs(buf: seq<Byte>, off: nat, n: nat): (r: OutputsRead)
    ensures r.off >= off
    decreases n
  {
    if n == 0 || off > |buf| then OutputsRead([], off) else
    var first := ReadOutput(buf, off);
    var others := ReadOutputs(buf, first.off, n - 1);
    OutputsRead([first.output] + others.outputs, others.off)
  }

  /** Where count items of a witness stack end; items beyond the end of the buffer are empty. */
  function SkipItems(buf: seq<Byte>, off: nat, count: nat): (end: nat)
    ensures end >= off
    decreases count
  {
    if count == 0 then off else SkipItems(buf, off + ItemLength(buf, off), count - 1)
  }

  /** Reads the witness of an input. */
  function ReadWitness(buf: seq<Byte>, off: nat, input: Input): (r: InputRead)
    ensures r.off >= off && r.input.signature == input.signature
  {
    var count := DecodedAt(buf, off);
    var start := off + count.length;
    var end := SkipItems(buf, start, count.value);
    InputRead(if end <= |buf| then input.(stack := Some(buf[start..end])) else input, end)
  }

  function ReadWitnesses(buf: seq<Byte>, off: nat, inputs: seq<Input>): (r: InputsRead)
    ensures r.off >= off
    decreases inputs
  {
    if inputs == [] || off > |buf| then InputsRead(inputs, off) else
    var first := ReadWitness(buf, off, inputs[0]);
    var others := ReadWitnesses(buf, first.off, inputs[1..]);
    InputsRead([first.input] + others.inputs, others.off)
  }

  datatype BodyRead = BodyRead(inputs: seq<Input>, outputs: seq<Output>, off: nat)

  function ReadBody(buf: seq<Byte>, off: nat, inCount: nat, witnessFlag: bool, isScript: seq<Byte> -> bool): (r: BodyRead)
    ensures r.off >= off
  {
    var ins := ReadInputs(buf, off, inCount, witnessFlag, isScript);
    var outCount := DecodedAt(buf, ins.off);
    var outs := ReadOutputs(buf, ins.off + outCount.length, outCount.value);
    BodyRead(ins.inputs, outs.outputs, outs.off)
  }

  datatype Header = Header(witnessFlag: bool, inCount: nat, off: nat)

  /** The input count after the version; a count of zero is a marker with a flag byte behind it. */
  function ReadHeader(buf: seq<Byte>): (r: Header)
    ensures r.off >= 5 && (r.witnessFlag ==> r.off >= 7)
  {
    var marker := DecodedAt(buf, 4);
    var off := 4 + marker.length;
    if marker.value == 0 && off + 1 <= |buf| then
      if buf[off] != 0 then
        var count := DecodedAt(buf, off + 1);
        Header(true, count.value, off + 1 + count.length)
      else Header(false, 0, off + 1)
    else Header(false, marker.value, off)
  }

  datatype Identified = Identified(tx: Transaction, txHash: Option<Hash>, wtxHash: Option<Hash>)

  predicate IsSigned(inputs: seq<Input>) {
    forall i :: 0 <= i < |inputs| ==> inputs[i].signature.Some?
  }

  /** The hashes of a parsed transaction, from its serialization up to the end of the outputs and up to
      its own end. */
  function Hashed(tx: Transaction, witnessFlag: bool, kept: seq<Byte>, read: seq<Byte>, sha: seq<Byte> -> Hash): Identified
    requires |kept| >= 6 || !witnessFlag
  {
    if !IsSigned(tx.inputs) then Identified(tx, None, None)
    else if witnessFlag then
      var base := LittleEndian(tx.version, 4) + kept[6..] + LittleEndian(tx.lockTime, 4);
      Identified(tx, Some(sha(base)), Some(sha(read)))
    else Identified(tx, Some(sha(read)), Some(sha(read)))
  }

  /** The transaction at the start of buf with its two hashes, or None.  sha is the double SHA-256 and
      isScript recognises the scripts that pay to an address. */
  function Parsed(buf: seq<Byte>, isScript: seq<Byte> -> bool, sha: seq<Byte> -> Hash): Option<Identified> {
    var header := ReadHeader(buf);
    var body := ReadBody(buf, header.off, header.inCount, header.witnessFlag, isScript);
    var wits := if header.witnessFlag then ReadWitnesses(buf, body.off, body.inputs) else InputsRead(body.inputs, body.off);
    if header.inCount == 0 || wits.off + 4 > |buf| then None else
    var tx := Transaction(Number32At(buf, 0), wits.inputs, body.outputs, Number32At(buf, wits.off));
    Some(Hashed(tx, header.witnessFlag, buf[..body.off], buf[..wits.off + 4], sha))
  }

  // ---- Reading what was written

  /** What of a signed input is on the wire before the witnesses. */
  function Bare(input: Input, witnessFlag: bool): Input {
    input.(script := None, amount := 0, stack := if witnessFlag then None else Some([]))
  }

  function Blank(input: Input): Input {
    input.(script := None, amount := 0)
  }

  lemma ReadInputData(buf: seq<Byte>, off: nat, input: Input, witnessFlag: bool, isScript: seq<Byte> -> bool)
    requires input.signature.Some? && |input.signature.value| < SIZE_LIMIT && !isScript(input.signature.value)
    requires Holds(buf, off, InputData(input))
    ensures ReadInput(buf, off, witnessFlag, isScript) == InputRead(Bare(input, witnessFlag), off + |InputData(input)|)
  {
    hide Encoded, DecodedAt, NumberAt, Holds;
    var sig := input.signature.value;
    var p1 := input.txHash;
    var p2 := p1 + LittleEndian(input.index, 4);
    var p3 := p2 + Encoded(|sig|);
    var p4 := p3 + sig;
    assert InputData(input) == p4 + LittleEndian(input.sequence, 4);
    HoldsParts(buf, off, p4, LittleEndian(input.sequence, 4));
    HoldsParts(buf, off, p3, sig);
    HoldsParts(buf, off, p2, Encoded(|sig|));
    HoldsParts(buf, off, p1, LittleEndian(input.index, 4));
    Widths();
    NumberHeld(buf, off + 32, input.index, 4);
    DecodeEncode(buf, off + 36, |sig|);
    NumberHeld(buf, off + |p4|, input.sequence, 4);
    HoldsSlice(buf, off, p1);
    HoldsSlice(buf, off + |p3|, sig);
  }

  function BareAll(inputs: seq<Input>, witnessFlag: bool): seq<Input> {
    if inputs == [] then [] else [Bare(inputs[0], witnessFlag)] + BareAll(inputs[1..], witnessFlag)
  }

  function BlankAll(inputs: seq<Input>): seq<Input> {
    if inputs == [] then [] else [Blank(inputs[0])] + BlankAll(inputs[1..])
  }

  /** Every input has a signature, not shaped like a payment script, and a well-formed witness stack. */
  ghost predicate Signed(inputs: seq<Input>, isScript: seq<Byte> -> bool) {
    forall i :: 0 <= i < |inputs| ==>
      && inputs[i].signature.Some? && !isScript(inputs[i].signature.value)
      && inputs[i].stack.Some? && Stack(inputs[i].stack.value, 0)
  }

  lemma {:induction false} ReadInputsData(buf: seq<Byte>, off: nat, inputs: seq<Input>, witnessFlag: bool, isScript: seq<Byte> -> bool)
    requires Signed(inputs, isScript) && forall i :: 0 <= i < |inputs| ==> |ScriptField(inputs[i])| < SIZE_LIMIT
    requires Holds(buf, off, InputsData(inputs))
    ensures ReadInputs(buf, off, |inputs|, witnessFlag, isScript)
            == InputsRead(BareAll(inputs, witnessFlag), off + |InputsData(inputs)|)
    decreases inputs
  {
    hide ReadInput, InputData;
    if inputs != [] {
      HoldsParts(buf, off, InputData(inputs[0]), InputsData(inputs[1..]));
      ReadInputData(buf, off, inputs[0], witnessFlag, isScript);
      ReadInputsData(buf, off + |InputData(inputs[0])|, inputs[1..], witnessFlag, isScript);
    }
  }

  lemma ReadOutputData(buf: seq<Byte>, off: nat, output: Output)
    requires |output.script| < SIZE_LIMIT && Holds(buf, off, OutputData(output))
    ensures ReadOutput(buf, off) == OutputRead(output, off + |OutputData(output)|)
  {
    hide Encoded, DecodedAt, NumberAt, Holds, LittleEndian, Pow;
    var p1 := LittleEndian(output.amount, 8);
    var p2 := p1 + Encoded(|output.script|);
    HoldsParts(buf, off, p2, output.script);
    HoldsParts(buf, off, p1, Encoded(|output.script|));
    Widths();
    NumberHeld(buf, off, output.amount, 8);
    DecodeEncode(buf, off + 8, |output.script|);
    HoldsSlice(buf, off + |p2|, output.script);
  }

  lemma {:induction false} ReadOutputsData(buf: seq<Byte>, off: nat, outputs: seq<Output>)
    requires forall i :: 0 <= i < |outputs| ==> |outputs[i].script| < SIZE_LIMIT
    requires Holds(buf, off, OutputsData(outputs))
    ensures ReadOutputs(buf, off, |outputs|) == OutputsRead(outputs, off + |OutputsData(outputs)|)
    decreases outputs
  {
    hide ReadOutput, OutputData;
    if outputs != [] {
      HoldsParts(buf, off, OutputData(outputs[0]), OutputsData(outputs[1..]));
      ReadOutputData(buf, off, outputs[0]);
      ReadOutputsData(buf, off + |OutputData(outputs[0])|, outputs[1..]);
      assert outputs == [outputs[0]] + outputs[1..];
    }
  }

  lemma {:induction false} SkipStack(buf: seq<Byte>, off: nat, w: seq<Byte>, woff: nat)
    requires Stack(w, woff) && Holds(buf, off, w)
    ensures SkipItems(buf, off + woff, Items(w, woff)) == off + |w|
    decreases |w| - woff
  {
    if woff < |w| {
      var next := woff + ItemLength(w, woff);
      assert next <= |w|;
      DecodeHeld(buf, off, w, woff);
      SkipStack(buf, off, w, next);
    }
  }

  /** A witness read from where the buffer holds it, given where its items start. */
  lemma HeldWitness(buf: seq<Byte>, off: nat, start: nat, w: seq<Byte>, input: Input)
    requires Stack(w, 0) && Holds(buf, start, w)
    requires start == off + DecodedAt(buf, off).length && DecodedAt(buf, off).value == Items(w, 0)
    ensures ReadWitness(buf, off, input) == InputRead(input.(stack := Some(w)), start + |w|)
  {
    hide DecodedAt, Holds, SkipItems, Stack, Items;
    SkipStack(buf, start, w, 0);
    HoldsSlice(buf, start, w);
  }

  lemma ReadWitnessData(buf: seq<Byte>, off: nat, w: seq<Byte>, input: Input)
    requires Stack(w, 0) && |w| < SIZE_LIMIT && Holds(buf, off, WitnessData(w))
    ensures ReadWitness(buf, off, input) == InputRead(input.(stack := Some(w)), off + |WitnessData(w)|)
  {
    hide Encoded, DecodedAt, Holds, ReadWitness, SkipItems, Stack, Items;
    HoldsParts(buf, off, Encoded(Items(w, 0)), w);
    DecodeEncode(buf, off, Items(w, 0));
    HeldWitness(buf, off, off + |Encoded(Items(w, 0))|, w, input);
  }

  lemma {:induction false} ReadWitnessesData(buf: seq<Byte>, off: nat, inputs: seq<Input>, isScript: seq<Byte> -> bool)
    requires Signed(inputs, isScript) && forall i :: 0 <= i < |inputs| ==> |OrEmpty(inputs[i].stack)| < SIZE_LIMIT
    requires Holds(buf, off, WitnessesData(inputs))
    ensures ReadWitnesses(buf, off, BareAll(inputs, true)) == InputsRead(BlankAll(inputs), off + |WitnessesData(inputs)|)
    decreases inputs
  {
    hide ReadWitness, WitnessData;
    if inputs != [] {
      var w := OrEmpty(inputs[0].stack);
      HoldsParts(buf, off, WitnessData(w), WitnessesData(inputs[1..]));
      ReadWitnessData(buf, off, w, Bare(inputs[0], true));
      ReadWitnessesData(buf, off + |WitnessData(w)|, inputs[1..], isScript);
      assert BareAll(inputs, true)[1..] == BareAll(inputs[1..], true);
    }
  }

  lemma {:induction false} BlankAllSigned(inputs: seq<Input>)
    requires IsSigned(inputs)
    ensures |BlankAll(inputs)| == |inputs| && IsSigned(BlankAll(inputs))
    ensures forall i :: 0 <= i < |inputs| ==> BlankAll(inputs)[i] == Blank(inputs[i])
  {
    if inputs != [] { BlankAllSigned(inputs[1..]); }
  }

  /** Without witness bytes, what is left after the outputs is already the whole input. */
  lemma {:induction false} BareIsBlank(inputs: seq<Input>)
    requires forall i :: 0 <= i < |inputs| ==> inputs[i].stack == Some([])
    ensures BareAll(inputs, false) == BlankAll(inputs)
  {
    if inputs != [] { BareIsBlank(inputs[1..]); }
  }

  lemma NoWitness(inputs: seq<Input>, isScript: seq<Byte> -> bool)
    requires Signed(inputs, isScript) && !HasWitness(inputs)
    ensures BareAll(inputs, false) == BlankAll(inputs)
  {
    forall i | 0 <= i < |inputs| ensures inputs[i].stack == Some([]) {
      assert |OrEmpty(inputs[i].stack)| == 0;
    }
    BareIsBlank(inputs);
  }

  /** The transaction as it comes back: scripts and amounts of signed inputs are not on the wire. */
  function Returned(tx: Transaction): Transaction {
    tx.(inputs := BlankAll(tx.inputs))
  }

  lemma ReadBodyData(buf: seq<Byte>, off: nat, tx: Transaction, witnessFlag: bool, isScript: seq<Byte> -> bool)
    requires Sized(tx) && Signed(tx.inputs, isScript) && Holds(buf, off, Body(tx))
    ensures var n := |Encoded(|tx.inputs|)|;
            Holds(buf, off, Encoded(|tx.inputs|))
            && ReadBody(buf, off + n, |tx.inputs|, witnessFlag, isScript)
               == BodyRead(BareAll(tx.inputs, witnessFlag), tx.outputs, off + |Body(tx)|)
  {
    hide Encoded, DecodedAt, Holds, ReadInputs, ReadOutputs, InputsData, OutputsData, BareAll;
    var n, i, m, o := Encoded(|tx.inputs|), InputsData(tx.inputs), Encoded(|tx.outputs|), OutputsData(tx.outputs);
    HoldsParts(buf, off, n + i + m, o);
    HoldsParts(buf, off, n + i, m);
    HoldsParts(buf, off, n, i);
    ReadInputsData(buf, off + |n|, tx.inputs, witnessFlag, isScript);
    DecodeEncode(buf, off + |n + i|, |tx.outputs|);
    ReadOutputsData(buf, off + |n + i + m|, tx.outputs);
  }

  lemma ReadMarked(buf: seq<Byte>, n: U64)
    requires Holds(buf, 4, [0, 1]) && Holds(buf, 6, Encoded(n))
    ensures ReadHeader(buf) == Header(true, n, 6 + |Encoded(n)|)
  {
    HoldsSlice(buf, 4, [0, 1]);
    assert buf[4] == buf[4..6][0] && buf[5] == buf[4..6][1];
    DecodeEncode(buf, 6, n);
  }

  lemma ReadUnmarked(buf: seq<Byte>, n: U64)
    requires n > 0 && Holds(buf, 4, Encoded(n))
    ensures ReadHeader(buf) == Header(false, n, 4 + |Encoded(n)|)
  {
    hide Encoded, Holds, NumberAt;
    DecodeEncode(buf, 4, n);
  }

  lemma HoldsPrefix(a: seq<Byte>, rest: seq<Byte>)
    ensures Holds(a + rest, 0, a)
  {
    HoldsSlice(a + rest, 0, a);
    assert (a + rest)[0..|a|] == a;
  }

  lemma ParseMarked(tx: Transaction, isScript: seq<Byte> -> bool, sha: seq<Byte> -> Hash, buf: seq<Byte>)
    requires Sized(tx) && tx.inputs != [] && Signed(tx.inputs, isScript) && HasWitness(tx.inputs)
    requires Holds(buf, 0, Serialized(tx))
    ensures Parsed(buf, isScript, sha) == Some(Identified(Returned(tx), Some(sha(Base(tx))), Some(sha(Serialized(tx)))))
  {
    hide Encoded, DecodedAt, NumberAt, Holds, LittleEndian, ReadBody, ReadWitnesses, ReadHeader, Body;
    hide WitnessesData, BareAll, BlankAll;
    var v, b, w, l := LittleEndian(tx.version, 4), Body(tx), WitnessesData(tx.inputs), LittleEndian(tx.lockTime, 4);
    HoldsParts(buf, 0, v + [0, 1] + b + w, l);
    HoldsParts(buf, 0, v + [0, 1] + b, w);
    HoldsParts(buf, 0, v + [0, 1], b);
    HoldsParts(buf, 0, v, [0, 1]);
    Widths();
    NumberHeld(buf, 0, tx.version, 4);
    ReadBodyData(buf, 6, tx, true, isScript);
    ReadMarked(buf, |tx.inputs|);
    ReadWitnessesData(buf, 6 + |b|, tx.inputs, isScript);
    NumberHeld(buf, 6 + |b| + |w|, tx.lockTime, 4);
    HoldsSlice(buf, 0, Serialized(tx));
    HoldsSlice(buf, 0, v + [0, 1] + b);
    assert (v + [0, 1] + b)[6..] == b;
    BlankAllSigned(tx.inputs);
  }

  lemma ParseUnmarked(tx: Transaction, isScript: seq<Byte> -> bool, sha: seq<Byte> -> Hash, buf: seq<Byte>)
    requires Sized(tx) && tx.inputs != [] && Signed(tx.inputs, isScript) && !HasWitness(tx.inputs)
    requires Holds(buf, 0, Serialized(tx))
    ensures Parsed(buf, isScript, sha) == Some(Identified(Returned(tx), Some(sha(Base(tx))), Some(sha(Serialized(tx)))))
  {
    hide Encoded, DecodedAt, NumberAt, Holds, LittleEndian, ReadBody, ReadHeader, Body, BareAll, BlankAll;
    var v, b, l := LittleEndian(tx.version, 4), Body(tx), LittleEndian(tx.lockTime, 4);
    HoldsParts(buf, 0, v + b, l);
    HoldsParts(buf, 0, v, b);
    Widths();
    NumberHeld(buf, 0, tx.version, 4);
    ReadBodyData(buf, 4, tx, false, isScript);
    ReadUnmarked(buf, |tx.inputs|);
    NumberHeld(buf, 4 + |b|, tx.lockTime, 4);
    HoldsSlice(buf, 0, Serialized(tx));
    NoWitness(tx.inputs, isScript);
    BlankAllSigned(tx.inputs);
  }

  /** Parsing a serialized signed transaction gives the transaction back, whatever follows it; its id is
      the hash of the serialization without witnesses, its witness id the hash of the whole one. */
  lemma ParseSerialize(tx: Transaction, isScript: seq<Byte> -> bool, sha: seq<Byte> -> Hash, rest: seq<Byte>)
    requires Sized(tx) && tx.inputs != [] && Signed(tx.inputs, isScript)
    ensures Parsed(Serialized(tx) + rest, isScript, sha)
            == Some(Identified(Returned(tx), Some(sha(Base(tx))), Some(sha(Serialized(tx)))))
  {
    hide Parsed, Serialized, Holds, Base;
    HoldsPrefix(Serialized(tx), rest);
    if HasWitness(tx.inputs) {
      ParseMarked(tx, isScript, sha, Serialized(tx) + rest);
    } else {
      ParseUnmarked(tx, isScript, sha, Serialized(tx) + rest);
    }
  }
}
