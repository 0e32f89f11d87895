/** Building a transaction for requested outputs, BRWalletCreateTxForOutputs in core/bitcoin/BRWallet.c,
    up to the point where a selection grows too large and the source starts over with less. */
module CoinSelection {
  import opened Blocks
  import opened Positional
  import opened TxCodec
  import opened TxLimits
  import opened TxSize
  import opened VarInt

  const TXIN_SEQUENCE: U32 := 0xffff_ffff

  datatype Outpoint = Outpoint(hash: Hash256, n: U32)

  /** What the selection reads of the wallet: its unspent outputs in order, the outputs of its
      transactions, its balance and the fee rate. */
  datatype Funds = Funds(utxos: seq<Outpoint>, allTx: map<Hash256, seq<Output>>, balance: nat, feePerKb: nat)

  datatype Outcome = Built(tx: Transaction) | InsufficientFunds | TooLarge

  // ---- Amounts and fees

  function TxFee(feePerKb: nat, size: nat): nat {
    var standardFee := size * TX_FEE_PER_KB / 1000;
    var fee := (size * feePerKb / 1000 + 99) / 100 * 100;
    if fee > standardFee then fee else standardFee
  }

  function MinOutputAmount(feePerKb: nat): nat {
    var amount := (TX_MIN_OUTPUT_AMOUNT * feePerKb + TX_FEE_PER_KB - 1) / TX_FEE_PER_KB;
    if amount > TX_MIN_OUTPUT_AMOUNT then amount else TX_MIN_OUTPUT_AMOUNT
  }

  /** The fee reaches the standard one and the asked rate, and is the least multiple of 100 that reaches the
      rate unless the standard one is not below that multiple. */
  lemma TxFeeIs(feePerKb: nat, size: nat)
    ensures var fee, standard, asked := TxFee(feePerKb, size), size * 1000 / 1000, size * feePerKb / 1000;
         && fee >= standard && fee >= asked
         && ((fee % 100 == 0 && fee < asked + 100) || (fee == standard && standard / 100 * 100 >= asked))
  {}

  /** The least amount of an output: three times its fee at the standard rate or at the asked one, rounded up. */
  lemma MinOutputIs(feePerKb: nat)
    ensures var least := MinOutputAmount(feePerKb);
         && least >= TX_MIN_OUTPUT_AMOUNT && least * 1000 >= TX_MIN_OUTPUT_AMOUNT * feePerKb
         && (least == TX_MIN_OUTPUT_AMOUNT || (least - 1) * 1000 < TX_MIN_OUTPUT_AMOUNT * feePerKb)
  {}

  /** A larger transaction never needs a smaller fee. */
  lemma TxFeeMonotone(feePerKb: nat, size: nat, larger: nat)
    requires size <= larger
    ensures TxFee(feePerKb, size) <= TxFee(feePerKb, larger)
  {
    assert size * feePerKb <= larger * feePerKb by {
      assert larger * feePerKb == size * feePerKb + (larger - size) * feePerKb;
    }
  }

  function Received(inputs: seq<Input>): nat {
    if inputs == [] then 0 else Received(inputs[..|inputs| - 1]) + inputs[|inputs| - 1].amount
  }

  function Sum(f: Output -> nat, outputs: seq<Output>): nat {
    if outputs == [] then 0 else f(outputs[0]) + Sum(f, outputs[1..])
  }

  function Amount(o: Output): nat { o.amount }

  function Spent(outputs: seq<Output>): nat { Sum(Amount, outputs) }

  // ---- The candidates

  function Candidate(f: Funds, o: Outpoint): Option<Input> {
    if o.hash in f.allTx && o.n < |f.allTx[o.hash]| then
      var output := f.allTx[o.hash][o.n];
      Some(Input(o.hash, o.n, output.amount, Some(output.script), None, None, TXIN_SEQUENCE))
    else None
  }

  /** The inputs for the first k unspent outputs; one whose transaction is unknown is passed over. */
  function Taken(f: Funds, k: nat): seq<Input>
    requires k <= |f.utxos|
  {
    if k == 0 then [] else
    var c := Candidate(f, f.utxos[k - 1]);
    Taken(f, k - 1) + if c.Some? then [c.value] else []
  }

  /** Every input spends a known output of the wallet: it carries its amount and script, no signature yet, and
      is final. */
  lemma {:induction false} InputsAreReady(f: Funds, k: nat)
    requires k <= |f.utxos|
    ensures forall i :: 0 <= i < |Taken(f, k)| ==>
      var input := Taken(f, k)[i];
      && Outpoint(input.txHash, input.index) in f.utxos[..k]
      && input.txHash in f.allTx && input.index < |f.allTx[input.txHash]| && input.sequence == 0xffff_ffff
      && f.allTx[input.txHash][input.index] == Output(input.amount, OrEmpty(input.script))
      && input.script.Some? && input.signature.None? && input.stack.None?
  {
    if k > 0 {
      InputsAreReady(f, k - 1);
      assert forall o :: o in f.utxos[..k - 1] ==> o in f.utxos[..k];
      assert f.utxos[k - 1] in f.utxos[..k];
    }
  }

  function Draft(inputs: seq<Input>, outputs: seq<Output>): Transaction {
    Transaction(1, inputs, outputs, 0)
  }

  /** Counts and scripts have 64-bit lengths, with room for a change output. */
  ghost predicate Bounded(f: Funds, outputs: seq<Output>, changeScript: seq<Byte>) {
    && |f.utxos| < SIZE_LIMIT && 0 < |outputs| < SIZE_LIMIT - 1 && |changeScript| < SIZE_LIMIT
    && (forall i :: 0 <= i < |outputs| ==> |outputs[i].script| < SIZE_LIMIT)
    && (forall h, i :: h in f.allTx && 0 <= i < |f.allTx[h]| ==> |f.allTx[h][i].script| < SIZE_LIMIT)
    && Received(Taken(f, |f.utxos|)) < SIZE_LIMIT
  }

  lemma {:induction false} TakenSized(f: Funds, outputs: seq<Output>, changeScript: seq<Byte>, k: nat)
    requires Bounded(f, outputs, changeScript) && k <= |f.utxos|
    ensures |Taken(f, k)| <= k && Sized(Draft(Taken(f, k), outputs))
  {
    if k > 0 {
      TakenSized(f, outputs, changeScript, k - 1);
    }
  }

  lemma {:induction false} TakenGrows(f: Funds, j: nat, k: nat)
    requires j <= k <= |f.utxos|
    ensures Received(Taken(f, j)) <= Received(Taken(f, k))
    decreases k
  {
    if j < k {
      TakenGrows(f, j, k - 1);
      var c := Candidate(f, f.utxos[k - 1]);
      if c.Some? {
        assert Taken(f, k)[..|Taken(f, k)| - 1] == Taken(f, k - 1);
      } else {
        assert Taken(f, k) == Taken(f, k - 1);
      }
    }
  }

  /** The fee once some inputs are taken: for a transaction with a change output, increased so that the
      wallet is left with a round balance. */
  function Fee(f: Funds, inputs: seq<Input>, outputs: seq<Output>): nat
    requires Sized(Draft(inputs, outputs))
  {
    var fee := TxFee(f.feePerKb, VirtualSize(Draft(inputs, outputs)) + TX_OUTPUT_SIZE);
    var amount := Spent(outputs);
    if f.balance > amount + fee then fee + (f.balance - (amount + fee)) % 100 else fee
  }

  predicate Enough(f: Funds, inputs: seq<Input>, outputs: seq<Output>)
    requires Sized(Draft(inputs, outputs))
  {
    var needed := Spent(outputs) + Fee(f, inputs, outputs);
    Received(inputs) == needed || Received(inputs) >= needed + MinOutputAmount(f.feePerKb)
  }

  // ---- Shuffling

  lemma SwapKeeps(s: seq<Output>, i: nat, j: nat)
    requires i < |s| && j < |s|
    ensures multiset(s[i := s[j]][j := s[i]]) == multiset(s)
  {}

  /** Fisher-Yates over the outputs in place; the random draw may be any remaining position. */
  method ShuffleOutputs(outputs: array<Output>)
    modifies outputs
    ensures multiset(outputs[..]) == multiset(old(outputs[..]))
  {
    var i := 0;
    while i + 1 < outputs.Length
      invariant multiset(outputs[..]) == multiset(old(outputs[..]))
    {
      var j: nat :| i <= j < outputs.Length;
      if j != i {
        ghost var was := outputs[..];
        SwapKeeps(was, i, j);
        outputs[i], outputs[j] := outputs[j], outputs[i];
        assert outputs[..] == was[i := was[j]][j := was[i]];
      }
      i := i + 1;
    }
  }

  lemma SumRemove(f: Output -> nat, outputs: seq<Output>, j: nat)
    requires j < |outputs|
    ensures Sum(f, outputs) == f(outputs[j]) + Sum(f, outputs[..j] + outputs[j + 1..])
    decreases outputs
  {
    if j == 0 {
      assert outputs[..0] + outputs[1..] == outputs[1..];
    } else {
      SumRemove(f, outputs[1..], j - 1);
      var rest := outputs[..j] + outputs[j + 1..];
      assert rest[1..] == outputs[1..][..j - 1] + outputs[1..][j..];
    }
  }

  /** A sum over outputs does not depend on their order. */
  lemma {:induction false} SumPermuted(f: Output -> nat, a: seq<Output>, b: seq<Output>)
    requires multiset(a) == multiset(b)
    ensures Sum(f, a) == Sum(f, b)
    decreases a
  {
    if a == [] {
      assert |b| == |multiset(b)| == 0;
    } else {
      assert a[0] in multiset(b);
      var j :| 0 <= j < |b| && b[j] == a[0];
      WithoutFirst(a, b, j);
      SumRemove(f, b, j);
      SumPermuted(f, a[1..], b[..j] + b[j + 1..]);
    }
  }

  lemma WithoutFirst(a: seq<Output>, b: seq<Output>, j: nat)
    requires a != [] && multiset(a) == multiset(b) && j < |b| && b[j] == a[0]
    ensures multiset(a[1..]) == multiset(b[..j] + b[j + 1..])
  {
    WithFirst(a, a[..0], a[0], a[1..]);
    WithFirst(b, b[..j], b[j], b[j + 1..]);
    assert a[..0] + a[1..] == a[1..];
    Cancel(a[0], multiset(a[1..]), multiset(b[..j] + b[j + 1..]));
  }

  lemma WithFirst(s: seq<Output>, left: seq<Output>, x: Output, right: seq<Output>)
    requires s == left + [x] + right
    ensures multiset(s) == multiset{x} + multiset(left + right)
  {}

  lemma Cancel(x: Output, m: multiset<Output>, n: multiset<Output>)
    requires multiset{x} + m == multiset{x} + n
    ensures m == n
  {
    forall y ensures m[y] == n[y] {
      assert (multiset{x} + m)[y] == (multiset{x} + n)[y];
    }
  }

  lemma {:induction false} SumSnoc(f: Output -> nat, outputs: seq<Output>, o: Output)
    ensures Sum(f, outputs + [o]) == Sum(f, outputs) + f(o)
  {
    SumRemove(f, outputs + [o], |outputs|);
    assert (outputs + [o])[..|outputs|] + (outputs + [o])[|outputs| + 1..] == outputs;
  }

  // ---- The selection

  /** What the loop leaves for the first k unspent outputs: all shorter prefixes are not enough. */
  ghost predicate Tried(f: Funds, outputs: seq<Output>, changeScript: seq<Byte>, k: nat)
    requires Bounded(f, outputs, changeScript) && k <= |f.utxos|
  {
    forall j :: 0 < j <= k && Candidate(f, f.utxos[j - 1]).Some? ==>
      (TakenSized(f, outputs, changeScript, j); !Enough(f, Taken(f, j), outputs))
  }

  /** More than the minimum amount left over goes to a change output, placed anywhere. */
  ghost predicate WithRest(feePerKb: nat, outputs: seq<Output>, changeScript: seq<Byte>, rest: nat, outs: seq<Output>) {
    if rest > MinOutputAmount(feePerKb) then rest < SIZE_LIMIT && multiset(outs) == multiset(outputs + [Output(rest, changeScript)])
    else outs == outputs
  }

  /** The finished transaction for the inputs of the first k unspent outputs. */
  ghost predicate Finished(f: Funds, outputs: seq<Output>, changeScript: seq<Byte>, k: nat, tx: Transaction)
    requires Bounded(f, outputs, changeScript) && k <= |f.utxos|
  {
    TakenSized(f, outputs, changeScript, k);
    var needed := Spent(outputs) + Fee(f, Taken(f, k), outputs);
    var received := Received(Taken(f, k));
    && tx.inputs == Taken(f, k) && received >= needed
    && WithRest(f.feePerKb, outputs, changeScript, received - needed, tx.outputs)
  }

  /** The inputs of the first k unspent outputs do not pay for the amount and the fee. */
  ghost predicate Short(f: Funds, outputs: seq<Output>, changeScript: seq<Byte>, k: nat)
    requires Bounded(f, outputs, changeScript) && k <= |f.utxos|
  {
    TakenSized(f, outputs, changeScript, k);
    Taken(f, k) == [] || Received(Taken(f, k)) < Spent(outputs) + Fee(f, Taken(f, k), outputs)
  }

  /** With the inputs of the first k unspent outputs the transaction is over the size limit. */
  ghost predicate OverSize(f: Funds, outputs: seq<Output>, changeScript: seq<Byte>, k: nat)
    requires Bounded(f, outputs, changeScript) && k <= |f.utxos|
  {
    TakenSized(f, outputs, changeScript, k);
    VirtualSize(Draft(Taken(f, k), outputs)) + TX_OUTPUT_SIZE > TX_MAX_SIZE
  }

  lemma TriedNone(f: Funds, outputs: seq<Output>, changeScript: seq<Byte>)
    requires Bounded(f, outputs, changeScript)
    ensures Tried(f, outputs, changeScript, 0) && Taken(f, 0) == [] && Received(Taken(f, 0)) == 0
  {}

  lemma TxFeePositive(feePerKb: nat, size: nat)
    requires size > 0
    ensures TxFee(feePerKb, size) > 0
  {}

  lemma TriedMore(f: Funds, outputs: seq<Output>, changeScript: seq<Byte>, k: nat)
    requires Bounded(f, outputs, changeScript) && k < |f.utxos| && Tried(f, outputs, changeScript, k)
    ensures Sized(Draft(Taken(f, k + 1), outputs))
    ensures (Candidate(f, f.utxos[k]).Some? ==> !Enough(f, Taken(f, k + 1), outputs)) ==> Tried(f, outputs, changeScript, k + 1)
  {
    hide Candidate, Enough, Taken, Sized;
    TakenSized(f, outputs, changeScript, k + 1);
  }

  /** The fee after adding a change output, rounded up so that the wallet is left with a round balance. */
  method RoundedFee(f: Funds, size: nat, amount: nat, ghost inputs: seq<Input>, ghost outputs: seq<Output>)
    returns (feeAmount: nat)
    requires Sized(Draft(inputs, outputs)) && size == VirtualSize(Draft(inputs, outputs)) && amount == Spent(outputs)
    ensures feeAmount == Fee(f, inputs, outputs)
  {
    hide VirtualSize, TxFee, Sum, Sized;
    feeAmount := TxFee(f.feePerKb, size + TX_OUTPUT_SIZE);
    if f.balance > amount + feeAmount { feeAmount := feeAmount + (f.balance - (amount + feeAmount)) % 100; }
  }

  /** The variables of the selection loop once the first k unspent outputs have been looked at. */
  ghost predicate Selecting(f: Funds, outputs: seq<Output>, changeScript: seq<Byte>, k: nat,
                            inputs: seq<Input>, balance: nat, feeAmount: nat)
    requires Bounded(f, outputs, changeScript) && k <= |f.utxos|
  {
    TakenSized(f, outputs, changeScript, k);
    && inputs == Taken(f, k) && balance == Received(inputs)
    && (if inputs == [] then feeAmount > 0 else feeAmount == Fee(f, inputs, outputs))
  }

  lemma TakenNext(f: Funds, k: nat)
    requires k < |f.utxos|
    ensures var c := Candidate(f, f.utxos[k]);
            && Taken(f, k + 1) == (if c.Some? then Taken(f, k) + [c.value] else Taken(f, k))
            && Received(Taken(f, k + 1)) == Received(Taken(f, k)) + (if c.Some? then c.value.amount else 0)
  {
    hide Candidate;
    var c := Candidate(f, f.utxos[k]);
    if c.Some? { assert (Taken(f, k) + [c.value])[..|Taken(f, k)|] == Taken(f, k); }
  }

  /** The selection loop: adds unspent outputs until the balance is enough for amount and fee. */
  method Select(f: Funds, outputs: seq<Output>, changeScript: seq<Byte>, amount: nat)
    returns (tooLarge: bool, inputs: seq<Input>, balance: nat, feeAmount: nat, ghost k: nat)
    requires Bounded(f, outputs, changeScript) && amount == Spent(outputs)
    ensures k <= |f.utxos| && (k > 0 ==> Tried(f, outputs, changeScript, k - 1))
    ensures tooLarge ==> k > 0 && OverSize(f, outputs, changeScript, k)
    ensures !tooLarge ==> Selecting(f, outputs, changeScript, k, inputs, balance, feeAmount)
    ensures !tooLarge && balance < amount + feeAmount ==> k == |f.utxos|
  {
    hide VirtualSize, TxFee, MinOutputAmount, Sum, Sized, Candidate, Fee, Tried, Taken, Received, Bounded;
    var minAmount := MinOutputAmount(f.feePerKb);
    TakenSized(f, outputs, changeScript, 0);
    TriedNone(f, outputs, changeScript);
    var size := VSize(Draft([], outputs));
    TxFeePositive(f.feePerKb, size + TX_OUTPUT_SIZE);
    tooLarge, inputs, balance, feeAmount := false, [], 0, TxFee(f.feePerKb, size + TX_OUTPUT_SIZE);
    var i, stop := 0, false;
    k := 0;
    while i < |f.utxos| && !stop
      invariant i <= |f.utxos| && k == i && !tooLarge
      invariant Selecting(f, outputs, changeScript, i, inputs, balance, feeAmount)
      invariant stop ==> i > 0 && balance >= amount + feeAmount && Tried(f, outputs, changeScript, i - 1)
      invariant !stop ==> Tried(f, outputs, changeScript, i)
    {
      TakenSized(f, outputs, changeScript, i + 1);
      TriedMore(f, outputs, changeScript, i);
      TakenNext(f, i);
      var c := Candidate(f, f.utxos[i]);
      if c.Some? {
        inputs := inputs + [c.value];
        size := VSize(Draft(inputs, outputs));
        if size + TX_OUTPUT_SIZE > TX_MAX_SIZE { return true, inputs, balance, feeAmount, i + 1; }
        balance := balance + c.value.amount;
        feeAmount := RoundedFee(f, size, amount, inputs, outputs);
        if balance == amount + feeAmount || balance >= amount + feeAmount + minAmount { stop := true; }
      }
      i := i + 1;
      k := i;
    }
    if !stop && k > 0 { TriedLess(f, outputs, changeScript, k); }
  }

  lemma TriedLess(f: Funds, outputs: seq<Output>, changeScript: seq<Byte>, k: nat)
    requires Bounded(f, outputs, changeScript) && 0 < k <= |f.utxos| && Tried(f, outputs, changeScript, k)
    ensures Tried(f, outputs, changeScript, k - 1)
  {
    hide Enough, Candidate, Taken, Fee;
  }

  lemma BalanceBounded(f: Funds, outputs: seq<Output>, changeScript: seq<Byte>, k: nat, inputs: seq<Input>, balance: nat, feeAmount: nat)
    requires Bounded(f, outputs, changeScript) && k <= |f.utxos| && Selecting(f, outputs, changeScript, k, inputs, balance, feeAmount)
    ensures balance < SIZE_LIMIT && balance == Received(Taken(f, k)) && inputs == Taken(f, k)
    ensures balance >= Spent(outputs) + feeAmount ==> (TakenSized(f, outputs, changeScript, k); feeAmount == Fee(f, Taken(f, k), outputs))
  {
    hide VirtualSize, TxFee, Sum, Sized, Candidate, Fee, Taken;
    assert Received([]) == 0;
    TakenGrows(f, k, |f.utxos|);
  }

  /** The inputs selected pay for the amount, the fee and what is left over. */
  lemma FinishedIs(f: Funds, outputs: seq<Output>, changeScript: seq<Byte>, k: nat, needed: nat, outs: seq<Output>)
    requires Bounded(f, outputs, changeScript) && k <= |f.utxos|
    requires (TakenSized(f, outputs, changeScript, k); needed == Spent(outputs) + Fee(f, Taken(f, k), outputs))
    requires needed <= Received(Taken(f, k)) && WithRest(f.feePerKb, outputs, changeScript, Received(Taken(f, k)) - needed, outs)
    ensures Finished(f, outputs, changeScript, k, Draft(Taken(f, k), outs))
  {
    hide VirtualSize, TxFee, MinOutputAmount, Sum, Sized, Candidate, Fee, Taken, Bounded, Received, WithRest;
  }

  lemma ShortIs(f: Funds, outputs: seq<Output>, changeScript: seq<Byte>, k: nat, inputs: seq<Input>, balance: nat, feeAmount: nat)
    requires Bounded(f, outputs, changeScript) && k <= |f.utxos| && Selecting(f, outputs, changeScript, k, inputs, balance, feeAmount)
    requires balance < Spent(outputs) + feeAmount
    ensures Short(f, outputs, changeScript, k)
  {
    hide VirtualSize, TxFee, Sum, Sized, Candidate, Fee, Taken, Bounded, Received;
  }

  method CreateTx(f: Funds, outputs: seq<Output>, changeScript: seq<Byte>) returns (r: Outcome, ghost k: nat)
    requires Bounded(f, outputs, changeScript)
    ensures k <= |f.utxos| && (k > 0 ==> Tried(f, outputs, changeScript, k - 1))
    ensures r.Built? ==> Finished(f, outputs, changeScript, k, r.tx)
    ensures r.Built? ==> multiset(outputs) <= multiset(r.tx.outputs) && Spent(r.tx.outputs) <= Received(r.tx.inputs)
    ensures r.InsufficientFunds? ==> k == |f.utxos| && Short(f, outputs, changeScript, k)
    ensures r.TooLarge? ==> OverSize(f, outputs, changeScript, k)
  {
    hide VirtualSize, TxFee, MinOutputAmount, Sum, Sized, Candidate, Fee, Tried, Taken, Bounded, Selecting;
    hide Finished, Short, OverSize, Received, Draft;
    var amount := SumOf(outputs);
    var minAmount := MinOutputAmount(f.feePerKb);
    var tooLarge, inputs, balance, feeAmount;
    tooLarge, inputs, balance, feeAmount, k := Select(f, outputs, changeScript, amount);
    if tooLarge { return TooLarge, k; }
    if balance < amount + feeAmount {
      ShortIs(f, outputs, changeScript, k, inputs, balance, feeAmount);
      return InsufficientFunds, k;
    }
    BalanceBounded(f, outputs, changeScript, k, inputs, balance, feeAmount);
    var outs := outputs;
    if balance - (amount + feeAmount) > minAmount {
      outs := WithChange(outputs, Output(balance - (amount + feeAmount), changeScript));
    }
    FinishedIs(f, outputs, changeScript, k, amount + feeAmount, outs);
    r := Built(Draft(inputs, outs));
    ghost var paid, computed := Conservation(f, outputs, changeScript, k, r.tx);
  }

  method WithChange(outputs: seq<Output>, change: Output) returns (outs: seq<Output>)
    ensures multiset(outs) == multiset(outputs + [change])
  {
    var shuffled := new Output[|outputs| + 1](j requires 0 <= j <= |outputs| => if j < |outputs| then outputs[j] else change);
    assert shuffled[..] == outputs + [change];
    ShuffleOutputs(shuffled);
    outs := shuffled[..];
  }

  method SumOf(outputs: seq<Output>) returns (amount: nat)
    ensures amount == Spent(outputs)
  {
    amount := 0;
    var i := 0;
    while i < |outputs|
      invariant i <= |outputs| && amount + Spent(outputs[i..]) == Spent(outputs)
    {
      amount := amount + outputs[i].amount;
      assert outputs[i..][1..] == outputs[i + 1..];
      i := i + 1;
    }
  }

  // ---- What a built transaction guarantees

  /** Inputs are outputs plus the fee paid; the requested outputs are all there; a change output is more
      than the minimum amount and pays exactly the computed fee; without one the fee paid exceeds the
      computed one by at most the minimum amount. */
  lemma Conservation(f: Funds, outputs: seq<Output>, changeScript: seq<Byte>, k: nat, tx: Transaction)
    returns (paid: nat, computed: nat)
    requires Bounded(f, outputs, changeScript) && k <= |f.utxos| && Finished(f, outputs, changeScript, k, tx)
    ensures (TakenSized(f, outputs, changeScript, k); computed == Fee(f, tx.inputs, outputs))
    ensures Received(tx.inputs) == Spent(tx.outputs) + paid
    ensures multiset(outputs) <= multiset(tx.outputs)
    ensures tx.outputs == outputs ==> computed <= paid <= computed + MinOutputAmount(f.feePerKb)
    ensures tx.outputs != outputs ==> paid == computed && exists change: Output ::
      change.script == changeScript && change.amount > MinOutputAmount(f.feePerKb)
      && multiset(tx.outputs) == multiset(outputs) + multiset{change}
  {
    hide Fee, MinOutputAmount, Sum, Received, Taken, Bounded, Sized;
    TakenSized(f, outputs, changeScript, k);
    computed := Fee(f, tx.inputs, outputs);
    var needed := Spent(outputs) + computed;
    var rest := Received(tx.inputs) - needed;
    if rest > MinOutputAmount(f.feePerKb) {
      var change := Output(rest, changeScript);
      SumPermuted(Amount, tx.outputs, outputs + [change]);
      SumSnoc(Amount, outputs, change);
      paid := computed;
      assert multiset(outputs + [change]) == multiset(outputs) + multiset{change};
      assert tx.outputs != outputs by { assert |multiset(tx.outputs)| == |multiset(outputs)| + 1; }
    } else {
      paid := computed + rest;
    }
  }

  function OutputSize(o: Output): nat {
    if |o.script| < SIZE_LIMIT then 8 + |Encoded(|o.script|)| + |o.script| else 0
  }

  lemma {:induction false} OutputSizesSum(outputs: seq<Output>)
    requires forall i :: 0 <= i < |outputs| ==> |outputs[i].script| < SIZE_LIMIT
    ensures OutputSizes(outputs) == Sum(OutputSize, outputs)
  {
    hide Encoded;
    if outputs != [] { OutputSizesSum(outputs[1..]); }
  }

  lemma PermutedSized(a: seq<Output>, b: seq<Output>)
    requires multiset(a) == multiset(b) && forall i :: 0 <= i < |b| ==> |b[i].script| < SIZE_LIMIT
    ensures |a| == |b| && forall i :: 0 <= i < |a| ==> |a[i].script| < SIZE_LIMIT
  {
    assert |multiset(a)| == |multiset(b)|;
    forall i | 0 <= i < |a| ensures |a[i].script| < SIZE_LIMIT {
      assert a[i] in multiset(b);
    }
  }

  /** The bytes that a change output adds to a transaction, with those that widen the output count. */
  function ChangeSize(count: nat, script: seq<Byte>): int
    requires count + 1 < SIZE_LIMIT && |script| < SIZE_LIMIT
  {
    8 + |Encoded(|script|)| + |script| + |Encoded(count + 1)| - |Encoded(count)|
  }

  lemma ChangeAdds(inputs: seq<Input>, outputs: seq<Output>, change: Output, outs: seq<Output>)
    requires Sized(Draft(inputs, outputs)) && |change.script| < SIZE_LIMIT
    requires multiset(outs) == multiset(outputs + [change]) && |outputs| + 1 < SIZE_LIMIT
    ensures Sized(Draft(inputs, outs))
    ensures VirtualSize(Draft(inputs, outs)) == VirtualSize(Draft(inputs, outputs)) + ChangeSize(|outputs|, change.script)
  {
    hide InputSizes, StackSizes, OutputSizes, Sum, Encoded;
    var tx, tx' := Draft(inputs, outputs), Draft(inputs, outs);
    PermutedSized(outs, outputs + [change]);
    OutputSizesSum(outputs);
    OutputSizesSum(outs);
    SumPermuted(OutputSize, outs, outputs + [change]);
    SumSnoc(OutputSize, outputs, change);
    assert BaseSize(tx') == BaseSize(tx) + ChangeSize(|outputs|, change.script);
    assert WitnessSize(tx') == WitnessSize(tx);
  }

  lemma FeeCovers(f: Funds, inputs: seq<Input>, outputs: seq<Output>, size: nat)
    requires Sized(Draft(inputs, outputs)) && size <= VirtualSize(Draft(inputs, outputs)) + TX_OUTPUT_SIZE
    ensures TxFee(f.feePerKb, size) <= Fee(f, inputs, outputs)
  {
    hide VirtualSize, TxFee, Sum;
    TxFeeMonotone(f.feePerKb, size, VirtualSize(Draft(inputs, outputs)) + TX_OUTPUT_SIZE);
  }

  /** The size of the finished transaction, by the change output it has or has not got. */
  lemma FinishedSize(f: Funds, outputs: seq<Output>, changeScript: seq<Byte>, k: nat, tx: Transaction) returns (paid: nat)
    requires Bounded(f, outputs, changeScript) && k <= |f.utxos| && Finished(f, outputs, changeScript, k, tx)
    ensures Received(tx.inputs) == Spent(tx.outputs) + paid
    ensures Sized(Draft(tx.inputs, outputs)) && Sized(Draft(tx.inputs, tx.outputs))
    ensures tx.outputs == outputs ==> paid >= Fee(f, tx.inputs, outputs)
    ensures tx.outputs != outputs ==>
      && paid == Fee(f, tx.inputs, outputs)
      && VirtualSize(Draft(tx.inputs, tx.outputs)) == VirtualSize(Draft(tx.inputs, outputs)) + ChangeSize(|outputs|, changeScript)
  {
    hide VirtualSize, TxFee, MinOutputAmount, Sum, Received, Taken, Fee, Encoded;
    TakenSized(f, outputs, changeScript, k);
    var computed;
    paid, computed := Conservation(f, outputs, changeScript, k, tx);
    if tx.outputs != outputs {
      var change := Output(Received(tx.inputs) - (Spent(outputs) + computed), changeScript);
      ChangeAdds(tx.inputs, outputs, change, tx.outputs);
    }
  }

  /** At any fee rate the fee is enough for the finished transaction's own virtual size, if the change
      output, should there be one, takes no more than the bytes set aside for it. */
  lemma FeeSufficient(f: Funds, outputs: seq<Output>, changeScript: seq<Byte>, k: nat, tx: Transaction)
    requires Bounded(f, outputs, changeScript) && k <= |f.utxos| && Finished(f, outputs, changeScript, k, tx)
    requires tx.outputs != outputs ==> ChangeSize(|outputs|, changeScript) <= TX_OUTPUT_SIZE
    ensures Sized(Draft(tx.inputs, tx.outputs))
    ensures Received(tx.inputs) >= Spent(tx.outputs) + TxFee(f.feePerKb, VirtualSize(Draft(tx.inputs, tx.outputs)))
  {
    hide VirtualSize, TxFee, MinOutputAmount, Sum, Received, Taken, Fee, ChangeSize;
    var paid := FinishedSize(f, outputs, changeScript, k, tx);
    FeeCovers(f, tx.inputs, outputs, VirtualSize(Draft(tx.inputs, tx.outputs)));
  }

  const CENT_PER_BYTE: nat := 100_000

  lemma RoundedUp(amount: nat, larger: nat)
    requires larger >= amount + CENT_PER_BYTE
    ensures (larger / 1000 + 99) / 100 * 100 >= (amount / 1000 + 99) / 100 * 100 + 100
    ensures (amount / 1000 + 99) / 100 * 100 >= amount / 1000
  {}

  lemma Scaled(rate: nat, size: nat)
    requires rate >= CENT_PER_BYTE
    ensures size * rate >= size * CENT_PER_BYTE && (size + 1) * rate == size * rate + rate
  {}

  lemma ByteCosts(feePerKb: nat, size: nat, larger: nat)
    requires feePerKb >= CENT_PER_BYTE && size < larger
    ensures TxFee(feePerKb, larger) >= TxFee(feePerKb, size) + 100
  {
    TxFeeMonotone(feePerKb, size + 1, larger);
    Scaled(feePerKb, size);
    RoundedUp(size * feePerKb, (size + 1) * feePerKb);
  }

  /** From 100 satoshi a byte on, the fee of a transaction with a change output is enough for its virtual
      size if and only if the change output takes no more than the bytes set aside for it. */
  lemma FeeSufficientIff(f: Funds, outputs: seq<Output>, changeScript: seq<Byte>, k: nat, tx: Transaction)
    requires Bounded(f, outputs, changeScript) && k <= |f.utxos| && Finished(f, outputs, changeScript, k, tx)
    requires tx.outputs != outputs && f.feePerKb >= CENT_PER_BYTE
    ensures Sized(Draft(tx.inputs, tx.outputs))
    ensures Received(tx.inputs) >= Spent(tx.outputs) + TxFee(f.feePerKb, VirtualSize(Draft(tx.inputs, tx.outputs)))
       <==> ChangeSize(|outputs|, changeScript) <= TX_OUTPUT_SIZE
  {
    hide VirtualSize, TxFee, MinOutputAmount, Sum, Received, Taken, ChangeSize;
    var paid := FinishedSize(f, outputs, changeScript, k, tx);
    var counted := VirtualSize(Draft(tx.inputs, outputs)) + TX_OUTPUT_SIZE;
    if ChangeSize(|outputs|, changeScript) <= TX_OUTPUT_SIZE {
      FeeSufficient(f, outputs, changeScript, k, tx);
    } else {
      ByteCosts(f.feePerKb, counted, VirtualSize(Draft(tx.inputs, tx.outputs)));
    }
  }

  /** Below 252 requested outputs every change script up to 25 bytes fits, and a 22-byte one fits at 252
      outputs too; a 25-byte one does not. */
  lemma ChangeSizes(count: nat, script: seq<Byte>)
    ensures count < 252 && |script| <= 25 ==> ChangeSize(count, script) <= TX_OUTPUT_SIZE
    ensures count == 252 && |script| == 22 ==> ChangeSize(count, script) == 33
    ensures count == 252 && |script| == 25 ==> ChangeSize(count, script) == 36
  {}

  // ---- A transaction whose fee falls short

  /** OP_DUP OP_HASH160 <20 bytes> OP_EQUALVERIFY OP_CHECKSIG */
  function PayToKeyHash(pkh: seq<Byte>): (script: seq<Byte>)
    requires |pkh| == 20
    ensures |script| == 25 && script[0] == 0x76
  {
    [0x76, 0xa9, 20] + pkh + [0x88, 0xac]
  }

  const PAID: nat := 100_000
  const COIN_AMOUNT: nat := 100_000_000

  function Payments(script: seq<Byte>): seq<Output> {
    seq(252, _ => Output(PAID, script))
  }

  lemma {:induction false} PaymentsAre(outputs: seq<Output>, script: seq<Byte>)
    requires |script| == 25 && forall i :: 0 <= i < |outputs| ==> outputs[i] == Output(PAID, script)
    ensures OutputSizes(outputs) == 34 * |outputs| && Spent(outputs) == PAID * |outputs|
  {
    if outputs != [] { PaymentsAre(outputs[1..], script); }
  }

  function ExampleFunds(coin: Outpoint, script: seq<Byte>): Funds {
    Funds([coin], map[coin.hash := [Output(COIN_AMOUNT, script)]], COIN_AMOUNT, CENT_PER_BYTE)
  }

  lemma OneInput(input: Input)
    requires input.signature == None && input.script.Some? && |input.script.value| == 25 && input.script.value[0] != 0
    ensures InputSizes([input]) == TX_INPUT_SIZE && StackSizes([input]) == 0
  {
    assert [input][1..] == [] && InputSizes([]) == 0 && StackSizes([]) == 0;
  }

  lemma ExampleSize(inputs: seq<Input>, outputs: seq<Output>)
    requires |inputs| == 1 && |outputs| == 252 && Sized(Draft(inputs, outputs))
    requires InputSizes(inputs) == TX_INPUT_SIZE && StackSizes(inputs) == 0 && OutputSizes(outputs) == 34 * 252
    ensures VirtualSize(Draft(inputs, outputs)) == 8726
  {
    hide InputSizes, StackSizes, OutputSizes, Sized;
  }

  lemma ExampleRate()
    ensures TxFee(CENT_PER_BYTE, 8726 + TX_OUTPUT_SIZE) == 876_000 && MinOutputAmount(CENT_PER_BYTE) == 54_600
  {}

  lemma ExampleTaken(f: Funds, coin: Outpoint, script: seq<Byte>)
    requires f == ExampleFunds(coin, script) && coin.n == 0
    ensures Taken(f, 1) == [Input(coin.hash, 0, COIN_AMOUNT, Some(script), None, None, TXIN_SEQUENCE)] && Received(Taken(f, 1)) == COIN_AMOUNT
  {
    var c := Candidate(f, coin);
    assert Taken(f, 0) == [] && Taken(f, 1) == [c.value] && Taken(f, 1)[..0] == [];
  }

  lemma ExampleFee(f: Funds, coin: Outpoint, script: seq<Byte>)
    requires f == ExampleFunds(coin, script) && coin.n == 0 && |script| == 25 && script[0] == 0x76
    ensures var outputs, inputs := Payments(script), Taken(f, 1);
         Sized(Draft(inputs, outputs)) && Spent(outputs) == 25_200_000 && Fee(f, inputs, outputs) == 876_000
  {
    var outputs := Payments(script);
    PaymentsAre(outputs, script);
    ExampleTaken(f, coin, script);
    var inputs := Taken(f, 1);
    assert inputs == [inputs[0]] && Sized(Draft(inputs, outputs));
    hide Payments, Taken, Sized, VirtualSize, InputSizes, StackSizes, OutputSizes, Sum, TxFee;
    OneInput(inputs[0]);
    ExampleSize(inputs, outputs);
    ExampleRate();
  }

  lemma ExampleBounded(f: Funds, coin: Outpoint, script: seq<Byte>, changeScript: seq<Byte>)
    requires f == ExampleFunds(coin, script) && coin.n == 0 && |script| == 25 && |changeScript| == 25
    ensures Bounded(f, Payments(script), changeScript)
  {
    ExampleTaken(f, coin, script);
    hide Taken, Received;
    assert f.allTx[coin.hash] == [Output(COIN_AMOUNT, script)];
  }

  /** 252 payments of 1 mBTC from a coin of 1 BTC, all to key hashes, with a change script to a key hash:
      the change output takes two bytes more than were set aside, and the fee does not pay for them. */
  lemma FeeShortExample(coin: Outpoint, owner: seq<Byte>, changeScript: seq<Byte>) returns (tx: Transaction)
    requires coin.n == 0 && |owner| == 20 && |changeScript| == 25
    ensures var script := PayToKeyHash(owner);
            var f, outputs := ExampleFunds(coin, script), Payments(script);
         && Bounded(f, outputs, changeScript) && Finished(f, outputs, changeScript, 1, tx) && Sized(Draft(tx.inputs, tx.outputs))
         && Received(tx.inputs) < Spent(tx.outputs) + TxFee(f.feePerKb, VirtualSize(Draft(tx.inputs, tx.outputs)))
  {
    var script := PayToKeyHash(owner);
    var f, outputs := ExampleFunds(coin, script), Payments(script);
    assert |outputs| == 252 && f.feePerKb == CENT_PER_BYTE && |f.utxos| == 1;
    ExampleFee(f, coin, script);
    ExampleTaken(f, coin, script);
    ExampleBounded(f, coin, script, changeScript);
    ExampleRate();
    hide VirtualSize, TxFee, MinOutputAmount, Sum, Received, Taken, Fee, Encoded, Payments, Sized, OutputSizes;
    hide Bounded, Candidate, ExampleFunds;
    tx := Draft(Taken(f, 1), outputs + [Output(73_924_000, changeScript)]);
    assert Finished(f, outputs, changeScript, 1, tx) && |tx.outputs| == 253;
    ChangeSizes(252, changeScript);
    FeeSufficientIff(f, outputs, changeScript, 1, tx);
  }

  /** The increase of the fee leaves the wallet a multiple of 100 when it can pay at all. */
  lemma FeeRoundsBalance(f: Funds, inputs: seq<Input>, outputs: seq<Output>)
    requires Sized(Draft(inputs, outputs))
    ensures var needed := Spent(outputs) + Fee(f, inputs, outputs);
            needed <= f.balance ==> (f.balance - needed) % 100 == 0
  {
    hide VirtualSize, TxFee, Sum;
  }
}
