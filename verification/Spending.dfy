/** What coin selection (core/bitcoin/BRWallet.c, BRWalletCreateTxForOutputs) spends, in terms of the
    wallet's tally: the two name transactions differently, by a hash of 32 bytes and by a number. */
module Spending {
  import opened Blocks
  import opened Positional
  import C = CoinSelection
  import L = Ledger
  import T = TxCodec

  type Naming = T.Hash256 -> Hash

  function Named(name: Naming, o: C.Outpoint): L.OutPoint {
    L.OutPoint(name(o.hash), o.n)
  }

  function Source(name: Naming, input: T.Input): L.OutPoint {
    L.OutPoint(name(input.txHash), input.index)
  }

  /** The selection works on the unspent outputs of a tally, in the same order, with their amounts. */
  ghost predicate Matches(name: Naming, f: C.Funds, c: L.Context, t: L.Tally) {
    && |f.utxos| == |t.utxos| && (forall i :: 0 <= i < |f.utxos| ==> t.utxos[i] == Named(name, f.utxos[i]))
    && (forall i :: 0 <= i < |f.utxos| && name(f.utxos[i].hash) in c.allTx ==> f.utxos[i].hash in f.allTx)
    && (forall h :: h in f.allTx && name(h) in c.allTx ==> SameAmounts(f.allTx[h], c.allTx[name(h)].outputs))
    && f.balance == L.Total(c.allTx, t.utxos)
  }

  ghost predicate SameAmounts(outputs: seq<T.Output>, listed: seq<L.Output>) {
    |outputs| == |listed| && forall j :: 0 <= j < |outputs| ==> outputs[j].amount == listed[j].amount
  }

  /** Every unspent output is a candidate, with its amount. */
  lemma CandidateIs(name: Naming, f: C.Funds, c: L.Context, ids: seq<Hash>, i: nat)
    requires L.WellFormed(c, ids) && Matches(name, f, c, L.Run(c, ids)) && i < |f.utxos|
    ensures var input := C.Candidate(f, f.utxos[i]);
         input.Some? && Source(name, input.value) == L.Run(c, ids).utxos[i] && input.value.amount == L.AmountOf(c.allTx, L.Run(c, ids).utxos[i])
  {
    L.UtxosInvariant(c, ids);
    var o := L.Run(c, ids).utxos[i];
    assert L.Received(c, L.Run(c, ids), ids, o);
    hide L.Run;
  }

  /** The first k unspent outputs are taken, one input each. */
  lemma {:induction false} TakenIs(name: Naming, f: C.Funds, c: L.Context, ids: seq<Hash>, k: nat)
    requires L.WellFormed(c, ids) && Matches(name, f, c, L.Run(c, ids)) && k <= |f.utxos|
    ensures var inputs := C.Taken(f, k);
         |inputs| == k && forall i :: 0 <= i < k ==> Source(name, inputs[i]) == L.Run(c, ids).utxos[i]
    ensures C.Received(C.Taken(f, k)) == L.Total(c.allTx, L.Run(c, ids).utxos[..k])
  {
    hide L.Run;
    if k > 0 {
      TakenIs(name, f, c, ids, k - 1);
      CandidateIs(name, f, c, ids, k - 1);
      OneMore(name, f, c, L.Run(c, ids).utxos, k - 1);
    }
  }

  lemma OneMore(name: Naming, f: C.Funds, c: L.Context, utxos: seq<L.OutPoint>, k: nat)
    requires k < |f.utxos| == |utxos| && C.Candidate(f, f.utxos[k]).Some?
    requires var input := C.Candidate(f, f.utxos[k]).value;
         Source(name, input) == utxos[k] && input.amount == L.AmountOf(c.allTx, utxos[k])
    requires |C.Taken(f, k)| == k && forall i :: 0 <= i < k ==> Source(name, C.Taken(f, k)[i]) == utxos[i]
    requires C.Received(C.Taken(f, k)) == L.Total(c.allTx, utxos[..k])
    ensures |C.Taken(f, k + 1)| == k + 1 && forall i :: 0 <= i < k + 1 ==> Source(name, C.Taken(f, k + 1)[i]) == utxos[i]
    ensures C.Received(C.Taken(f, k + 1)) == L.Total(c.allTx, utxos[..k + 1])
  {
    hide C.Taken, C.Received, C.Candidate, L.Total, L.AmountOf, Source;
    C.TakenNext(f, k);
    assert utxos[..k + 1] == utxos[..k] + [utxos[k]];
    L.TotalAppend(c.allTx, utxos[..k], utxos[k]);
  }

  /** A built transaction spends different outputs, each of which the wallet has received, and none of
      which is spent if the tally is exact. */
  lemma SpendsUnspent(name: Naming, f: C.Funds, outputs: seq<T.Output>, changeScript: seq<Byte>, k: nat, tx: T.Transaction,
                      c: L.Context, ids: seq<Hash>)
    requires L.WellFormed(c, ids) && Matches(name, f, c, L.Run(c, ids))
    requires C.Bounded(f, outputs, changeScript) && k <= |f.utxos| && C.Finished(f, outputs, changeScript, k, tx)
    ensures forall i, j :: 0 <= i < j < |tx.inputs| ==> Source(name, tx.inputs[i]) != Source(name, tx.inputs[j])
    ensures forall i :: 0 <= i < |tx.inputs| ==> L.Received(c, L.Run(c, ids), ids, Source(name, tx.inputs[i]))
    ensures L.Exact(c, L.Run(c, ids), ids) ==>
      forall i :: 0 <= i < |tx.inputs| ==> !L.SpentBy(c, L.Run(c, ids), ids, Source(name, tx.inputs[i]))
  {
    TakenIs(name, f, c, ids, k);
    L.UtxosInvariant(c, ids);
    hide L.Run, L.Received, L.SpentBy, C.Taken, C.Bounded;
    var t := L.Run(c, ids);
    forall i | 0 <= i < |tx.inputs| ensures Source(name, tx.inputs[i]) in t.utxos { assert t.utxos[i] in t.utxos; }
  }

  /** Everything together is the wallet's balance: a selection that runs out of candidates has found the
      balance short of the amount and the fee. */
  lemma AllFunds(name: Naming, f: C.Funds, c: L.Context, ids: seq<Hash>)
    requires L.WellFormed(c, ids) && Matches(name, f, c, L.Run(c, ids))
    ensures C.Received(C.Taken(f, |f.utxos|)) == f.balance
  {
    TakenIs(name, f, c, ids, |f.utxos|);
    assert L.Run(c, ids).utxos[..|f.utxos|] == L.Run(c, ids).utxos;
  }
}
