/** The size computations of core/bitcoin/BRTransaction.c, against the lengths of the serializations. */
module TxSize {
  import opened Blocks
  import opened Positional
  import opened TxCodec
  import opened TxLimits
  import opened VarInt

  /** Bytes of an input outside its witness; an unsigned witness input is not counted here. */
  function InputSize(input: Input): nat
    requires |ScriptField(input)| < SIZE_LIMIT
  {
    if input.signature.Some? && input.stack.Some? then
      40 + |Encoded(|input.signature.value|)| + |input.signature.value|
    else if |OrEmpty(input.script)| > 0 && input.script.value[0] == 0 then 0
    else TX_INPUT_SIZE
  }

  /** Witness bytes of an input, estimated for an unsigned witness input. */
  function StackSize(input: Input): nat {
    if input.signature.Some? && input.stack.Some? then |input.stack.value|
    else if |OrEmpty(input.script)| > 0 && input.script.value[0] == 0 then TX_INPUT_SIZE
    else 0
  }

  function InputSizes(inputs: seq<Input>): nat
    requires forall i :: 0 <= i < |inputs| ==> |ScriptField(inputs[i])| < SIZE_LIMIT
  {
    if inputs == [] then 0 else InputSize(inputs[0]) + InputSizes(inputs[1..])
  }

  function StackSizes(inputs: seq<Input>): nat {
    if inputs == [] then 0 else StackSize(inputs[0]) + StackSizes(inputs[1..])
  }

  function OutputSizes(outputs: seq<Output>): nat
    requires forall i :: 0 <= i < |outputs| ==> |outputs[i].script| < SIZE_LIMIT
  {
    if outputs == [] then 0
    else 8 + |Encoded(|outputs[0].script|)| + |outputs[0].script| + OutputSizes(outputs[1..])
  }

  function BaseSize(tx: Transaction): nat
    requires Sized(tx)
  {
    8 + |Encoded(|tx.inputs|)| + |Encoded(|tx.outputs|)| + InputSizes(tx.inputs) + OutputSizes(tx.outputs)
  }

  /** Marker, flag and one count byte per input come on top of any witness bytes. */
  function WitnessSize(tx: Transaction): nat {
    var size := StackSizes(tx.inputs);
    if size > 0 then size + 2 + |tx.inputs| else 0
  }

  // ---- The loops of BRTransactionSize and BRTransactionVSize

  method Sizes(tx: Transaction) returns (size: nat, witSize: nat)
    requires Sized(tx)
    ensures size == BaseSize(tx) && witSize == WitnessSize(tx)
  {
    hide Encoded;
    size, witSize := 8 + |Encoded(|tx.inputs|)| + |Encoded(|tx.outputs|)|, 0;
    var i := 0;
    while i < |tx.inputs|
      invariant i <= |tx.inputs|
      invariant size + InputSizes(tx.inputs[i..])
             == 8 + |Encoded(|tx.inputs|)| + |Encoded(|tx.outputs|)| + InputSizes(tx.inputs)
      invariant witSize + StackSizes(tx.inputs[i..]) == StackSizes(tx.inputs)
    {
      var input := tx.inputs[i];
      assert tx.inputs[i..][1..] == tx.inputs[i + 1..];
      if input.signature.Some? && input.stack.Some? {
        size := size + 32 + 4 + |Encoded(|input.signature.value|)| + |input.signature.value| + 4;
        witSize := witSize + |input.stack.value|;
      } else if input.script.Some? && |input.script.value| > 0 && input.script.value[0] == 0 {
        witSize := witSize + TX_INPUT_SIZE;
      } else {
        size := size + TX_INPUT_SIZE;
      }
      i := i + 1;
    }
    assert tx.inputs[i..] == [];
    i := 0;
    ghost var before := size;
    while i < |tx.outputs|
      invariant i <= |tx.outputs| && size + OutputSizes(tx.outputs[i..]) == before + OutputSizes(tx.outputs)
    {
      assert tx.outputs[i..][1..] == tx.outputs[i + 1..];
      size := size + 8 + |Encoded(|tx.outputs[i].script|)| + |tx.outputs[i].script|;
      i := i + 1;
    }
    assert tx.outputs[i..] == [];
    if witSize > 0 { witSize := witSize + 2 + |tx.inputs|; }
  }

  method Size(tx: Transaction) returns (r: nat)
    requires Sized(tx)
    ensures r == BaseSize(tx) + WitnessSize(tx)
  {
    var size, witSize := Sizes(tx);
    r := size + witSize;
  }

  function VirtualSize(tx: Transaction): nat
    requires Sized(tx)
  {
    (BaseSize(tx) * 4 + WitnessSize(tx) + 3) / 4
  }

  method VSize(tx: Transaction) returns (r: nat)
    requires Sized(tx)
    ensures r == VirtualSize(tx)
  {
    var size, witSize := Sizes(tx);
    r := (size * 4 + witSize + 3) / 4;
  }

  // ---- Sizes of signed transactions

  ghost predicate Complete(inputs: seq<Input>) {
    forall i :: 0 <= i < |inputs| ==> inputs[i].signature.Some? && inputs[i].stack.Some?
  }

  lemma {:induction false} InputLengths(inputs: seq<Input>)
    requires Complete(inputs) && forall i :: 0 <= i < |inputs| ==> |ScriptField(inputs[i])| < SIZE_LIMIT
    ensures InputSizes(inputs) == |InputsData(inputs)|
  {
    hide Encoded, LittleEndian;
    if inputs != [] { InputLengths(inputs[1..]); }
  }

  lemma {:induction false} OutputLengths(outputs: seq<Output>)
    requires forall i :: 0 <= i < |outputs| ==> |outputs[i].script| < SIZE_LIMIT
    ensures OutputSizes(outputs) == |OutputsData(outputs)|
  {
    hide Encoded, LittleEndian;
    if outputs != [] { OutputLengths(outputs[1..]); }
  }

  /** Every stack has fewer items than a one-byte count can hold. */
  ghost predicate SmallStacks(inputs: seq<Input>) {
    forall i :: 0 <= i < |inputs| ==> Items(OrEmpty(inputs[i].stack), 0) < VAR_INT16_HEADER
  }

  lemma {:induction false} WitnessLengths(inputs: seq<Input>)
    requires Complete(inputs) && forall i :: 0 <= i < |inputs| ==> |OrEmpty(inputs[i].stack)| < SIZE_LIMIT
    ensures |WitnessesData(inputs)| >= StackSizes(inputs) + |inputs|
    ensures |WitnessesData(inputs)| == StackSizes(inputs) + |inputs| <==> SmallStacks(inputs)
  {
    hide Encoded, Items;
    if inputs != [] {
      WitnessLengths(inputs[1..]);
      EncodedSize(Items(OrEmpty(inputs[0].stack), 0));
      assert SmallStacks(inputs) <==> Items(OrEmpty(inputs[0].stack), 0) < VAR_INT16_HEADER && SmallStacks(inputs[1..]) by {
        assert inputs == [inputs[0]] + inputs[1..];
      }
    }
  }

  lemma {:induction false} StacksEmpty(inputs: seq<Input>)
    requires Complete(inputs)
    ensures StackSizes(inputs) > 0 <==> HasWitness(inputs)
  {
    if inputs != [] {
      StacksEmpty(inputs[1..]);
      assert HasWitness(inputs) <==> |OrEmpty(inputs[0].stack)| > 0 || HasWitness(inputs[1..]) by {
        assert inputs == [inputs[0]] + inputs[1..];
        if HasWitness(inputs[1..]) {
          var i :| 0 <= i < |inputs[1..]| && |OrEmpty(inputs[1..][i].stack)| > 0;
          assert inputs[i + 1] == inputs[1..][i];
        }
      }
    }
  }

  /** For a signed transaction the computed base size is the length without witnesses; the computed size
      is the serialized length exactly when no stack needs a count of more than one byte. */
  lemma SizeIsLength(tx: Transaction)
    requires Sized(tx) && Complete(tx.inputs)
    ensures BaseSize(tx) == |Base(tx)|
    ensures BaseSize(tx) + WitnessSize(tx) <= |Serialized(tx)|
    ensures BaseSize(tx) + WitnessSize(tx) == |Serialized(tx)| <==> !HasWitness(tx.inputs) || SmallStacks(tx.inputs)
  {
    hide Encoded, LittleEndian, SmallStacks, Items, HasWitness, InputsData, OutputsData, WitnessesData;
    hide InputSizes, OutputSizes, StackSizes;
    InputLengths(tx.inputs);
    OutputLengths(tx.outputs);
    WitnessLengths(tx.inputs);
    StacksEmpty(tx.inputs);
  }

  function Blanks(n: nat): seq<Byte> {
    if n == 0 then [] else [0] + Blanks(n - 1)
  }

  lemma {:induction false} BlankItems(n: nat, off: nat)
    requires off <= n
    ensures |Blanks(n)| == n && (forall i :: 0 <= i < n ==> Blanks(n)[i] == 0) && Items(Blanks(n), off) == n - off
    decreases n - off
  {
    BlanksAre(n);
    if off < n {
      BlankItems(n, off + 1);
      assert DecodedAt(Blanks(n), off).value == 0;
    }
  }

  lemma {:induction false} BlanksAre(n: nat)
    ensures |Blanks(n)| == n && forall i :: 0 <= i < n ==> Blanks(n)[i] == 0
  {
    if n > 0 { BlanksAre(n - 1); }
  }

  /** A signed input whose witness stack has 253 empty items, or more: the computed size is short. */
  lemma ManyItemsExample(input: Input, n: nat)
    requires 253 <= n < SIZE_LIMIT && input.signature == Some([]) && input.stack == Some(Blanks(n))
    ensures var tx := Transaction(1, [input], [], 0);
         Sized(tx) && Complete(tx.inputs) && BaseSize(tx) + WitnessSize(tx) < |Serialized(tx)|
  {
    BlankItems(n, 0);
    var tx := Transaction(1, [input], [], 0);
    hide Blanks, Items, Encoded, Serialized, BaseSize, WitnessSize;
    assert |OrEmpty(tx.inputs[0].stack)| > 0 && Items(OrEmpty(tx.inputs[0].stack), 0) == n;
    SizeIsLength(tx);
  }

  /** The virtual size of BIP141: a quarter of three base sizes and one total size, rounded up. */
  lemma VirtualSizeIsWeight(tx: Transaction)
    requires Sized(tx) && Complete(tx.inputs) && SmallStacks(tx.inputs)
    ensures VirtualSize(tx) == (3 * |Base(tx)| + |Serialized(tx)| + 3) / 4
  {
    hide BaseSize, WitnessSize, Base, Serialized, SmallStacks, HasWitness;
    SizeIsLength(tx);
  }
}
