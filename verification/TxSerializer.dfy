/** The serializer of core/bitcoin/BRTransaction.c for a whole transaction. */
module TxSerializer {
  import opened Blocks
  import opened Positional
  import opened TxCodec
  import opened VarInt

  lemma Assoc(a: seq<Byte>, b: seq<Byte>, c: seq<Byte>)
    ensures a + b + c == a + (b + c)
  {}

  method SerializeInput(input: Input) returns (data: seq<Byte>)
    requires |ScriptField(input)| < SIZE_LIMIT
    ensures data == InputData(input)
  {
    var field, amount := OrEmpty(input.signature), 0;
    if input.signature.None? {
      field, amount := OrEmpty(input.script), input.amount;
    }
    data := input.txHash + LittleEndian(input.index, 4);
    data := data + Encoded(|field|);
    data := data + field;
    if amount != 0 { data := data + LittleEndian(amount, 8); }
    data := data + LittleEndian(input.sequence, 4);
  }

  method SerializeInputs(start: seq<Byte>, inputs: seq<Input>) returns (data: seq<Byte>)
    requires forall i :: 0 <= i < |inputs| ==> |ScriptField(inputs[i])| < SIZE_LIMIT
    ensures data == start + InputsData(inputs)
  {
    data := start;
    var i := 0;
    while i < |inputs|
      invariant i <= |inputs| && start + InputsData(inputs) == data + InputsData(inputs[i..])
    {
      var next := SerializeInput(inputs[i]);
      Assoc(data, next, InputsData(inputs[i + 1..]));
      assert inputs[i..][1..] == inputs[i + 1..];
      data := data + next;
      i := i + 1;
    }
    assert inputs[i..] == [];
  }

  method SerializeOutputs(start: seq<Byte>, outputs: seq<Output>) returns (data: seq<Byte>)
    requires forall i :: 0 <= i < |outputs| ==> |outputs[i].script| < SIZE_LIMIT
    ensures data == start + OutputsData(outputs)
  {
    data := start;
    var i := 0;
    while i < |outputs|
      invariant i <= |outputs| && start + OutputsData(outputs) == data + OutputsData(outputs[i..])
    {
      var o := outputs[i];
      Assoc(data, OutputData(o), OutputsData(outputs[i + 1..]));
      assert outputs[i..][1..] == outputs[i + 1..];
      Assoc(data, LittleEndian(o.amount, 8) + Encoded(|o.script|), o.script);
      Assoc(data, LittleEndian(o.amount, 8), Encoded(|o.script|));
      data := data + LittleEndian(o.amount, 8);
      data := data + Encoded(|o.script|);
      data := data + o.script;
      i := i + 1;
    }
    assert outputs[i..] == [];
  }

  /** Counts the items of a witness by walking their length prefixes. */
  method CountItems(w: seq<Byte>) returns (count: nat)
    ensures count == Items(w, 0)
  {
    count := 0;
    var woff := 0;
    while woff < |w|
      invariant count + Items(w, woff) == Items(w, 0)
      decreases |w| - woff
    {
      var length := DecodedAt(w, woff);
      woff := woff + length.value;
      woff := woff + length.length;
      count := count + 1;
    }
  }

  method SerializeWitnesses(start: seq<Byte>, inputs: seq<Input>) returns (data: seq<Byte>)
    requires forall i :: 0 <= i < |inputs| ==> |OrEmpty(inputs[i].stack)| < SIZE_LIMIT
    ensures data == start + WitnessesData(inputs)
  {
    data := start;
    var i := 0;
    while i < |inputs|
      invariant i <= |inputs| && start + WitnessesData(inputs) == data + WitnessesData(inputs[i..])
    {
      var w := OrEmpty(inputs[i].stack);
      var count := CountItems(w);
      Assoc(data, WitnessData(w), WitnessesData(inputs[i + 1..]));
      assert inputs[i..][1..] == inputs[i + 1..];
      Assoc(data, Encoded(count), w);
      data := data + Encoded(count);
      data := data + w;
      i := i + 1;
    }
    assert inputs[i..] == [];
  }

  method Serialize(tx: Transaction) returns (data: seq<Byte>)
    requires Sized(tx)
    ensures data == Serialized(tx)
  {
    var witnessFlag, i := false, 0;
    while !witnessFlag && i < |tx.inputs|
      invariant i <= |tx.inputs|
      invariant witnessFlag <==> exists k :: 0 <= k < i && |OrEmpty(tx.inputs[k].stack)| > 0
    {
      if |OrEmpty(tx.inputs[i].stack)| > 0 { witnessFlag := true; }
      i := i + 1;
    }
    data := LittleEndian(tx.version, 4);
    if witnessFlag { data := data + [0, 1]; }
    ghost var head := data;
    data := data + Encoded(|tx.inputs|);
    data := SerializeInputs(data, tx.inputs);
    data := data + Encoded(|tx.outputs|);
    data := SerializeOutputs(data, tx.outputs);
    BodyAfter(head, tx);
    if witnessFlag { data := SerializeWitnesses(data, tx.inputs); }
    data := data + LittleEndian(tx.lockTime, 4);
  }

  lemma BodyAfter(head: seq<Byte>, tx: Transaction)
    requires Sized(tx)
    ensures head + Encoded(|tx.inputs|) + InputsData(tx.inputs) + Encoded(|tx.outputs|) + OutputsData(tx.outputs)
            == head + Body(tx)
  {
    var n, i, m, o := Encoded(|tx.inputs|), InputsData(tx.inputs), Encoded(|tx.outputs|), OutputsData(tx.outputs);
    Assoc(head, n, i);
    Assoc(head, n + i, m);
    Assoc(head, n + i + m, o);
  }
}
