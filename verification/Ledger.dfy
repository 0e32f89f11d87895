/** What _BRWalletUpdateBalance (core/bitcoin/BRWallet.c) computes from the ordered transaction list:
    a tally of unspent outputs, spent outputs, invalid and pending transactions. */
module Ledger {
  import opened Blocks
  import opened TxLimits

  type Pkh = nat

  const TX_UNCONFIRMED: nat := 0x7fff_ffff
  const UINT32_MAX: nat := 0xffff_ffff
  const TX_MAX_LOCK_HEIGHT: nat := 500_000_000

  datatype OutPoint = OutPoint(txHash: Hash, index: nat)

  datatype Input = Input(prev: OutPoint, sequence: nat)

  /** pkh is the key hash that BRScriptPKH finds in the script, if any. */
  datatype Output = Output(amount: nat, pkh: Option<Pkh>, hasAddress: bool)

  datatype Tx = Tx(hash: Hash, inputs: seq<Input>, outputs: seq<Output>, lockTime: nat, vsize: nat)

  /** What the tally of a list depends on besides the list. */
  datatype Context = Context(
    allTx: map<Hash, Tx>,
    height: map<Hash, nat>,
    owned: set<Pkh>,
    blockHeight: nat,
    now: nat)

  datatype Tally = Tally(
    utxos: seq<OutPoint>,
    spent: set<OutPoint>,
    invalid: set<Hash>,
    pending: set<Hash>,
    used: set<Pkh>,
    sent: nat,
    received: nat,
    history: seq<nat>)

  const NOTHING := Tally([], {}, {}, {}, {}, 0, 0, [])

  ghost predicate NoDuplicates<T>(s: seq<T>) {
    forall i, j :: 0 <= i < j < |s| ==> s[i] != s[j]
  }

  ghost predicate WellFormed(c: Context, ids: seq<Hash>) {
    && NoDuplicates(ids)
    && (forall id :: id in ids ==> id in c.allTx && id in c.height)
    && (forall id :: id in c.allTx ==> c.allTx[id].hash == id)
  }

  predicate Unconfirmed(c: Context, id: Hash)
    requires id in c.height
  {
    c.height[id] == TX_UNCONFIRMED
  }

  function Spends(tx: Tx): set<OutPoint> {
    set i | 0 <= i < |tx.inputs| :: tx.inputs[i].prev
  }

  /** An unconfirmed transaction is invalid if an input is already spent or comes from an invalid one. */
  predicate Conflicts(spent: set<OutPoint>, invalid: set<Hash>, tx: Tx) {
    exists i :: 0 <= i < |tx.inputs| && (tx.inputs[i].prev in spent || tx.inputs[i].prev.txHash in invalid)
  }

  predicate HoldsBack(input: Input, lockTime: nat, blockHeight: nat, now: nat, pending: set<Hash>) {
    || input.sequence < UINT32_MAX - 1
    || (input.sequence < UINT32_MAX && lockTime < TX_MAX_LOCK_HEIGHT && lockTime > blockHeight + 1)
    || (input.sequence < UINT32_MAX && lockTime > now)
    || input.prev.txHash in pending
  }

  /** An unconfirmed transaction is pending if it is oversize, pays dust, can be replaced, is time
      locked, or spends from a pending one. */
  predicate IsPending(c: Context, pending: set<Hash>, tx: Tx) {
    || tx.vsize > TX_MAX_SIZE
    || (exists i :: 0 <= i < |tx.outputs| && tx.outputs[i].amount < TX_MIN_OUTPUT_AMOUNT)
    || (exists i :: 0 <= i < |tx.inputs| && HoldsBack(tx.inputs[i], tx.lockTime, c.blockHeight, c.now, pending))
  }

  predicate IsOwned(owned: set<Pkh>, output: Output) {
    output.hasAddress && output.pkh.Some? && output.pkh.value in owned
  }

  /** The wallet's outputs among the first n outputs of tx, in order. */
  function OwnedOutputs(owned: set<Pkh>, tx: Tx, n: nat): (r: seq<OutPoint>)
    requires n <= |tx.outputs|
  {
    if n == 0 then [] else
      OwnedOutputs(owned, tx, n - 1) + if IsOwned(owned, tx.outputs[n - 1]) then [OutPoint(tx.hash, n - 1)] else []
  }

  function UsedKeys(owned: set<Pkh>, tx: Tx, n: nat): set<Pkh>
    requires n <= |tx.outputs|
  {
    if n == 0 then {} else
      UsedKeys(owned, tx, n - 1) + if IsOwned(owned, tx.outputs[n - 1]) then {tx.outputs[n - 1].pkh.value} else {}
  }

  function Keep(utxos: seq<OutPoint>, spent: set<OutPoint>): (r: seq<OutPoint>)
    ensures |r| <= |utxos|
  {
    if utxos == [] then [] else (if utxos[0] in spent then [] else [utxos[0]]) + Keep(utxos[1..], spent)
  }

  function AmountOf(allTx: map<Hash, Tx>, o: OutPoint): nat {
    if o.txHash in allTx && o.index < |allTx[o.txHash].outputs| then allTx[o.txHash].outputs[o.index].amount else 0
  }

  function Total(allTx: map<Hash, Tx>, utxos: seq<OutPoint>): nat {
    if utxos == [] then 0 else AmountOf(allTx, utxos[0]) + Total(allTx, utxos[1..])
  }

  /** The effect of one transaction on the tally of the list before it. */
  function Step(c: Context, t: Tally, id: Hash): Tally
    requires id in c.allTx && id in c.height
  {
    var tx, unconfirmed := c.allTx[id], Unconfirmed(c, id);
    var balance := Total(c.allTx, t.utxos);
    if unconfirmed && Conflicts(t.spent, t.invalid, tx) then
      t.(invalid := t.invalid + {id}, history := t.history + [balance])
    else
      var spent := t.spent + Spends(tx);
      if unconfirmed && IsPending(c, t.pending, tx) then
        t.(spent := spent, pending := t.pending + {id}, history := t.history + [balance])
      else
        var utxos := Keep(t.utxos + OwnedOutputs(c.owned, tx, |tx.outputs|), spent);
        var after := Total(c.allTx, utxos);
        Tally(utxos, spent, t.invalid, t.pending, t.used + UsedKeys(c.owned, tx, |tx.outputs|),
              t.sent + (if after < balance then balance - after else 0),
              t.received + (if balance < after then after - balance else 0),
              t.history + [after])
  }

  function Run(c: Context, ids: seq<Hash>): Tally
    requires forall id :: id in ids ==> id in c.allTx && id in c.height
  {
    if ids == [] then NOTHING else Step(c, Run(c, ids[..|ids| - 1]), ids[|ids| - 1])
  }

  // ---- What the tally means

  predicate Accepted(t: Tally, id: Hash) { id !in t.invalid && id !in t.pending }

  /** Outputs of accepted transactions of the list that belong to the wallet. */
  ghost predicate Received(c: Context, t: Tally, ids: seq<Hash>, o: OutPoint) {
    && o.txHash in ids && Accepted(t, o.txHash) && o.txHash in c.allTx
    && o.index < |c.allTx[o.txHash].outputs| && IsOwned(c.owned, c.allTx[o.txHash].outputs[o.index])
  }

  /** Outputs spent by some transaction of the list that is not invalid. */
  ghost predicate SpentBy(c: Context, t: Tally, ids: seq<Hash>, o: OutPoint) {
    exists id :: id in ids && id !in t.invalid && id in c.allTx && o in Spends(c.allTx[id])
  }

  lemma {:induction false} OwnedOutputsIs(owned: set<Pkh>, tx: Tx, n: nat)
    requires n <= |tx.outputs|
    ensures NoDuplicates(OwnedOutputs(owned, tx, n))
    ensures forall o :: o in OwnedOutputs(owned, tx, n) <==> o.txHash == tx.hash && o.index < n && IsOwned(owned, tx.outputs[o.index])
  {
    if n > 0 { OwnedOutputsIs(owned, tx, n - 1); }
  }

  lemma KeepNone(utxos: seq<OutPoint>, spent: set<OutPoint>)
    ensures utxos[|utxos|..] == [] && Keep(utxos[|utxos|..], spent) == []
  {}

  lemma KeepStep(utxos: seq<OutPoint>, spent: set<OutPoint>, j: nat)
    requires 0 < j <= |utxos|
    ensures Keep(utxos[j - 1..], spent) == (if utxos[j - 1] in spent then [] else [utxos[j - 1]]) + Keep(utxos[j..], spent)
  {
    assert utxos[j - 1..][1..] == utxos[j..];
  }

  lemma {:induction false} KeepIs(utxos: seq<OutPoint>, spent: set<OutPoint>)
    ensures forall o :: o in Keep(utxos, spent) <==> o in utxos && o !in spent
    ensures NoDuplicates(utxos) ==> NoDuplicates(Keep(utxos, spent))
  {
    if utxos != [] {
      KeepIs(utxos[1..], spent);
      assert utxos == [utxos[0]] + utxos[1..];
    }
  }

  lemma NoDuplicatesConcat<T>(a: seq<T>, b: seq<T>)
    requires NoDuplicates(a) && NoDuplicates(b) && forall x :: x in a ==> x !in b
    ensures NoDuplicates(a + b)
  {
    forall i, j | 0 <= i < j < |a + b| ensures (a + b)[i] != (a + b)[j] {
      if i < |a| <= j { assert a[i] in a && b[j - |a|] in b; }
    }
  }

  /** The tally mentions only listed transactions, and its spent set is what they spend. */
  lemma {:induction false} SetsExact(c: Context, ids: seq<Hash>)
    requires WellFormed(c, ids)
    ensures var t := Run(c, ids);
         && (forall id :: id in t.invalid || id in t.pending ==> id in ids)
         && t.invalid !! t.pending
         && (forall o :: o in t.spent <==> SpentBy(c, t, ids, o))
  {
    if ids != [] {
      var before, id := ids[..|ids| - 1], ids[|ids| - 1];
      SetsExact(c, before);
      var t, t' := Run(c, before), Run(c, ids);
      assert ids == before + [id];
      assert id !in before;
      forall o ensures o in t'.spent <==> SpentBy(c, t', ids, o) {
        if o in t.spent {
          var x :| x in before && x !in t.invalid && x in c.allTx && o in Spends(c.allTx[x]);
          assert x in ids && x !in t'.invalid;
        }
      }
    }
  }

  /** At every point utxos holds only received outputs, once each, and misses none that is unspent. */
  lemma {:induction false} UtxosInvariant(c: Context, ids: seq<Hash>)
    requires WellFormed(c, ids)
    ensures var t := Run(c, ids);
         && NoDuplicates(t.utxos)
         && (forall o :: o in t.utxos ==> Received(c, t, ids, o))
         && (forall o :: Received(c, t, ids, o) && o !in t.spent ==> o in t.utxos)
  {
    if ids != [] {
      var before, id := ids[..|ids| - 1], ids[|ids| - 1];
      assert ids == before + [id];
      assert id !in before;
      UtxosInvariant(c, before);
      SetsExact(c, before);
      var t, t', tx := Run(c, before), Run(c, ids), c.allTx[id];
      forall o: OutPoint | o.txHash in before ensures Received(c, t', ids, o) == Received(c, t, before, o) {}
      if Accepted(t', id) {
        var added := OwnedOutputs(c.owned, tx, |tx.outputs|);
        OwnedOutputsIs(c.owned, tx, |tx.outputs|);
        NoDuplicatesConcat(t.utxos, added);
        KeepIs(t.utxos + added, t'.spent);
      }
    }
  }

  /** After each accepted transaction, utxos is exactly the wallet's outputs of the accepted
      transactions so far minus everything spent by accepted or pending ones so far. */
  lemma UtxosExact(c: Context, ids: seq<Hash>)
    requires WellFormed(c, ids) && ids != [] && Accepted(Run(c, ids), ids[|ids| - 1])
    ensures var t := Run(c, ids);
         && NoDuplicates(t.utxos)
         && forall o :: o in t.utxos <==> Received(c, t, ids, o) && !SpentBy(c, t, ids, o)
  {
    AcceptedPurges(c, ids);
    UtxosInvariant(c, ids);
    SetsExact(c, ids);
    hide Run, Received, SpentBy, NoDuplicates;
  }

  /** Right after an accepted transaction no unspent output is in the spent set. */
  lemma AcceptedPurges(c: Context, ids: seq<Hash>)
    requires WellFormed(c, ids) && ids != [] && Accepted(Run(c, ids), ids[|ids| - 1])
    ensures forall o :: o in Run(c, ids).utxos ==> o !in Run(c, ids).spent
  {
    var before, id := ids[..|ids| - 1], ids[|ids| - 1];
    SetsExact(c, before);
    assert id !in before;
    hide SpentBy;
    var tx := c.allTx[id];
    KeepIs(Run(c, before).utxos + OwnedOutputs(c.owned, tx, |tx.outputs|), Run(c, ids).spent);
  }

  // ---- Between accepted transactions

  /** The unspent outputs are exactly those received and not spent. */
  ghost predicate Exact(c: Context, t: Tally, ids: seq<Hash>) {
    forall o :: o in t.utxos <==> Received(c, t, ids, o) && !SpentBy(c, t, ids, o)
  }

  /** Length of the part of the list that ends with its last accepted transaction. */
  ghost function Settled(c: Context, ids: seq<Hash>): (n: nat)
    requires WellFormed(c, ids)
    ensures n <= |ids|
  {
    if ids == [] || Accepted(Run(c, ids), ids[|ids| - 1]) then |ids| else Settled(c, ids[..|ids| - 1])
  }

  /** A pending transaction listed from position n on spends o. */
  ghost predicate HeldBack(c: Context, t: Tally, ids: seq<Hash>, n: nat, o: OutPoint) {
    exists k :: n <= k < |ids| && ids[k] in t.pending && ids[k] in c.allTx && o in Spends(c.allTx[ids[k]])
  }

  /** After the last accepted transaction utxos stays and only pending transactions spend. */
  lemma {:induction false} SinceSettled(c: Context, ids: seq<Hash>)
    requires WellFormed(c, ids)
    ensures var n, t := Settled(c, ids), Run(c, ids);
         && t.utxos == Run(c, ids[..n]).utxos
         && forall o :: o in t.spent <==> o in Run(c, ids[..n]).spent || HeldBack(c, t, ids, n, o)
  {
    hide OwnedOutputs, UsedKeys, Keep, Total, Conflicts, IsPending, SpentBy;
    var n, t := Settled(c, ids), Run(c, ids);
    if n == |ids| {
      assert ids[..n] == ids;
    } else {
      var before, id := ids[..|ids| - 1], ids[|ids| - 1];
      SinceSettled(c, before);
      SetsExact(c, before);
      assert before[..n] == ids[..n];
      assert id !in before;
      var was := Run(c, before);
      forall o ensures HeldBack(c, t, ids, n, o) <==> HeldBack(c, was, before, n, o) || (id in t.pending && o in Spends(c.allTx[id])) {
        if HeldBack(c, was, before, n, o) {
          var k :| n <= k < |before| && before[k] in was.pending && before[k] in c.allTx && o in Spends(c.allTx[before[k]]);
          assert ids[k] in t.pending;
        } else if id in t.pending && o in Spends(c.allTx[id]) {
          assert ids[|ids| - 1] in t.pending;
        }
      }
    }
  }

  lemma SettledIsExact(c: Context, ids: seq<Hash>)
    requires WellFormed(c, ids)
    ensures var n := Settled(c, ids); forall o :: o in Run(c, ids[..n]).utxos ==> o !in Run(c, ids[..n]).spent
    decreases |ids|
  {
    var n := Settled(c, ids);
    assert ids[..|ids|] == ids;
    if n == |ids| {
      if ids != [] { AcceptedPurges(c, ids); }
    } else {
      SettledIsExact(c, ids[..|ids| - 1]);
      assert ids[..|ids| - 1][..n] == ids[..n];
    }
  }

  /** At the end of any list the unspent outputs are exact if and only if no pending transaction that
      is listed behind the last accepted one spends one of them. */
  lemma UtxosExactIff(c: Context, ids: seq<Hash>)
    requires WellFormed(c, ids)
    ensures var n, t := Settled(c, ids), Run(c, ids);
         Exact(c, t, ids) <==> forall o :: o in Run(c, ids[..n]).utxos ==> !HeldBack(c, t, ids, n, o)
  {
    SinceSettled(c, ids);
    SettledIsExact(c, ids);
    UtxosInvariant(c, ids);
    SetsExact(c, ids);
    hide Run, Settled, Received, SpentBy, HeldBack, NoDuplicates;
  }

  const COIN := OutPoint(1, 0)
  const PAYMENT := Tx(1, [Input(OutPoint(0, 0), UINT32_MAX)], [Output(100_000, Some(7), true)], 0, 192)
  const REPLACEABLE := Tx(2, [Input(COIN, 0)], [Output(90_000, Some(8), true)], 0, 192)

  function ExampleContext(blockHeight: nat, now: nat): Context {
    Context(map[1 := PAYMENT, 2 := REPLACEABLE], map[1 := 5, 2 := TX_UNCONFIRMED], {7}, blockHeight, now)
  }

  /** The tally of one confirmed transaction. */
  lemma FirstConfirmed(c: Context, ids: seq<Hash>, id: Hash)
    requires ids == [id] && id in c.allTx && id in c.height && c.height[id] != TX_UNCONFIRMED
    ensures var t, tx := Run(c, ids), c.allTx[id];
         && t.utxos == Keep(OwnedOutputs(c.owned, tx, |tx.outputs|), Spends(tx)) && t.used == UsedKeys(c.owned, tx, |tx.outputs|)
         && t.spent == Spends(tx) && t.invalid == {} && t.pending == {}
  {
    hide OwnedOutputs, UsedKeys, Keep, Total, Spends, IsPending, Conflicts;
    assert ids[..0] == [] && Run(c, ids) == Step(c, NOTHING, id);
    var owned := OwnedOutputs(c.owned, c.allTx[id], |c.allTx[id].outputs|);
    assert [] + owned == owned && {} + Spends(c.allTx[id]) == Spends(c.allTx[id]);
  }

  lemma ExamplePayment(c: Context, ids: seq<Hash>)
    requires 1 in c.allTx && c.allTx[1] == PAYMENT && 1 in c.height && c.height[1] == 5 && 7 in c.owned && ids == [1]
    ensures var t := Run(c, ids); COIN in t.utxos && t.spent == {OutPoint(0, 0)} && t.invalid == {} && t.pending == {}
  {
    FirstConfirmed(c, ids, 1);
    hide Run, Keep;
    OwnedOutputsIs(c.owned, PAYMENT, 1);
    assert IsOwned(c.owned, PAYMENT.outputs[0]) && Spends(PAYMENT) == {OutPoint(0, 0)} by { assert PAYMENT.inputs[0].prev in Spends(PAYMENT); }
    KeepIs(OwnedOutputs(c.owned, PAYMENT, 1), Spends(PAYMENT));
  }

  /** A confirmed payment to the wallet and an unconfirmed replaceable spend of it: the output stays
      among the unspent ones although it is spent. */
  lemma UtxosInexactExample(blockHeight: nat, now: nat)
    ensures var c, ids := ExampleContext(blockHeight, now), [1, 2];
         WellFormed(c, ids) && COIN in Run(c, ids).utxos && COIN in Run(c, ids).spent && !Exact(c, Run(c, ids), ids)
  {
    var c, ids := ExampleContext(blockHeight, now), [1, 2];
    ExamplePayment(c, ids[..1]);
    var input, spent := REPLACEABLE.inputs[0], {OutPoint(0, 0)};
    assert HoldsBack(input, 0, blockHeight, now, {}) && IsPending(c, {}, REPLACEABLE) && !Conflicts(spent, {}, REPLACEABLE);
    assert Run(c, ids) == Step(c, Run(c, ids[..1]), 2);
    assert COIN == input.prev && COIN in Spends(REPLACEABLE);
    SetsExact(c, ids);
    hide Run, Step;
  }

  /** The balance is what was received minus what was sent. */
  lemma {:induction false} BalanceIsNet(c: Context, ids: seq<Hash>)
    requires WellFormed(c, ids)
    ensures Run(c, ids).received - Run(c, ids).sent == Total(c.allTx, Run(c, ids).utxos)
  {
    if ids != [] { BalanceIsNet(c, ids[..|ids| - 1]); }
  }

  /** The history records the balance after each transaction. */
  lemma {:induction false} HistoryExact(c: Context, ids: seq<Hash>, k: nat)
    requires WellFormed(c, ids)
    ensures |Run(c, ids).history| == |ids|
    ensures k < |ids| ==> Run(c, ids).history[k] == Total(c.allTx, Run(c, ids[..k + 1]).utxos)
  {
    if ids != [] {
      var before := ids[..|ids| - 1];
      HistoryExact(c, before, k);
      assert Run(c, ids).history == Run(c, before).history + [Total(c.allTx, Run(c, ids).utxos)];
      if k < |before| {
        assert before[..k + 1] == ids[..k + 1];
      } else if k < |ids| {
        assert ids[..k + 1] == ids;
      }
    }
  }

  // ---- New keys

  predicate PaysAny(tx: Tx, keys: set<Pkh>) {
    exists j :: 0 <= j < |tx.outputs| && IsOwned(keys, tx.outputs[j])
  }

  lemma {:induction false} SameOutputs(tx: Tx, owned: set<Pkh>, keys: set<Pkh>, n: nat)
    requires owned <= keys && n <= |tx.outputs| && !PaysAny(tx, keys - owned)
    ensures OwnedOutputs(owned, tx, n) == OwnedOutputs(keys, tx, n) && UsedKeys(owned, tx, n) == UsedKeys(keys, tx, n)
  {
    if n > 0 { SameOutputs(tx, owned, keys, n - 1); }
  }

  lemma {:induction false} UsedKeysIs(owned: set<Pkh>, tx: Tx, n: nat)
    requires n <= |tx.outputs|
    ensures forall k :: k in UsedKeys(owned, tx, n) <==> exists j :: 0 <= j < n && IsOwned(owned, tx.outputs[j]) && tx.outputs[j].pkh.value == k
  {
    if n > 0 { UsedKeysIs(owned, tx, n - 1); }
  }

  /** Which transactions are invalid or pending does not depend on the wallet's keys. */
  lemma {:induction false} VerdictsIgnoreKeys(c: Context, keys: set<Pkh>, ids: seq<Hash>)
    requires WellFormed(c, ids)
    ensures var t, t' := Run(c, ids), Run(c.(owned := keys), ids);
         t.spent == t'.spent && t.invalid == t'.invalid && t.pending == t'.pending
  {
    hide Total, Keep, OwnedOutputs, UsedKeys;
    if ids != [] { VerdictsIgnoreKeys(c, keys, ids[..|ids| - 1]); }
  }

  ghost predicate AcceptedPays(c: Context, ids: seq<Hash>, keys: set<Pkh>)
    requires WellFormed(c, ids)
  {
    exists id :: id in ids && Accepted(Run(c, ids), id) && PaysAny(c.allTx[id], keys)
  }

  lemma AcceptedPaysSnoc(c: Context, ids: seq<Hash>, keys: set<Pkh>)
    requires WellFormed(c, ids) && ids != []
    ensures var before, id := ids[..|ids| - 1], ids[|ids| - 1];
         AcceptedPays(c, ids, keys) <==> AcceptedPays(c, before, keys) || (Accepted(Run(c, ids), id) && PaysAny(c.allTx[id], keys))
  {
    var before, last := ids[..|ids| - 1], ids[|ids| - 1];
    assert ids == before + [last];
    VerdictStable(c, ids, |before|);
    hide Run, PaysAny;
    if AcceptedPays(c, before, keys) {
      var id :| id in before && Accepted(Run(c, before), id) && PaysAny(c.allTx[id], keys);
      assert id in ids && Accepted(Run(c, ids), id);
    }
    if AcceptedPays(c, ids, keys) {
      var id :| id in ids && Accepted(Run(c, ids), id) && PaysAny(c.allTx[id], keys);
      if id in before { assert Accepted(Run(c, before), id); }
    }
  }

  lemma {:induction false} UsedExact(c: Context, ids: seq<Hash>, keys: set<Pkh>)
    requires WellFormed(c, ids)
    ensures (exists k :: k in Run(c, ids).used && k in keys) <==> AcceptedPays(c, ids, keys * c.owned)
  {
    if ids != [] {
      var before, id := ids[..|ids| - 1], ids[|ids| - 1];
      UsedExact(c, before, keys);
      AcceptedPaysSnoc(c, ids, keys * c.owned);
      SetsExact(c, before);
      assert id !in before;
      UsedStep(c, Run(c, before), id, keys);
      hide Step, PaysAny;
    }
  }

  lemma UsedStep(c: Context, t: Tally, id: Hash, keys: set<Pkh>)
    requires id in c.allTx && id in c.height && id !in t.invalid && id !in t.pending
    ensures (exists k :: k in Step(c, t, id).used && k in keys)
       <==> (exists k :: k in t.used && k in keys) || (Accepted(Step(c, t, id), id) && PaysAny(c.allTx[id], keys * c.owned))
  {
    hide PaysAny, UsedKeys, OwnedOutputs, Keep, Total, Conflicts, IsPending, Spends;
    UsedKeysMeet(c.owned, c.allTx[id], keys);
  }

  lemma UsedKeysMeet(owned: set<Pkh>, tx: Tx, keys: set<Pkh>)
    ensures (exists k :: k in UsedKeys(owned, tx, |tx.outputs|) && k in keys) <==> PaysAny(tx, keys * owned)
  {
    UsedKeysIs(owned, tx, |tx.outputs|);
    hide UsedKeys;
    if PaysAny(tx, keys * owned) {
      var j :| 0 <= j < |tx.outputs| && IsOwned(keys * owned, tx.outputs[j]);
      assert IsOwned(owned, tx.outputs[j]);
    } else {
      forall j | 0 <= j < |tx.outputs| ensures IsOwned(owned, tx.outputs[j]) ==> tx.outputs[j].pkh.value !in keys {
        assert !IsOwned(keys * owned, tx.outputs[j]);
      }
    }
  }

  /** A tally made with fewer keys is the tally for all keys if and only if no accepted transaction
      pays one of the others. */
  lemma {:induction false} TallyWithMoreKeys(c: Context, keys: set<Pkh>, ids: seq<Hash>)
    requires WellFormed(c, ids) && c.owned <= keys
    ensures Run(c, ids) == Run(c.(owned := keys), ids) <==> !AcceptedPays(c, ids, keys - c.owned)
  {
    var c', more := c.(owned := keys), keys - c.owned;
    UsedExact(c, ids, more);
    UsedExact(c', ids, more);
    assert more * c.owned == {} && more * keys == more;
    VerdictsIgnoreKeys(c, keys, ids);
    if AcceptedPays(c, ids, more) {
      var id :| id in ids && Accepted(Run(c, ids), id) && PaysAny(c.allTx[id], more);
      assert Accepted(Run(c', ids), id);
      assert AcceptedPays(c', ids, more) && !AcceptedPays(c, ids, more * c.owned);
    } else {
      SameTally(c, keys, ids);
    }
  }

  lemma {:induction false} SameTally(c: Context, keys: set<Pkh>, ids: seq<Hash>)
    requires WellFormed(c, ids) && c.owned <= keys && !AcceptedPays(c, ids, keys - c.owned)
    ensures Run(c, ids) == Run(c.(owned := keys), ids)
  {
    if ids != [] {
      var before, id := ids[..|ids| - 1], ids[|ids| - 1];
      AcceptedPaysSnoc(c, ids, keys - c.owned);
      SameTally(c, keys, before);
      SetsExact(c, before);
      assert id !in before;
      SameStep(c, keys, Run(c, before), id);
      hide Step, PaysAny;
    }
  }

  lemma SameStep(c: Context, keys: set<Pkh>, t: Tally, id: Hash)
    requires c.owned <= keys && id in c.allTx && id in c.height && id !in t.invalid && id !in t.pending
    requires !(Accepted(Step(c, t, id), id) && PaysAny(c.allTx[id], keys - c.owned))
    ensures Step(c, t, id) == Step(c.(owned := keys), t, id)
  {
    hide PaysAny, UsedKeys, OwnedOutputs, Keep, Total, Conflicts, Spends;
    var tx := c.allTx[id];
    if Accepted(Step(c, t, id), id) { SameOutputs(tx, c.owned, keys, |tx.outputs|); }
  }

  // ---- Order does not matter for confirmed transactions

  ghost predicate AllConfirmed(c: Context, ids: seq<Hash>)
    requires WellFormed(c, ids)
  {
    forall id :: id in ids ==> !Unconfirmed(c, id)
  }

  lemma {:induction false} ConfirmedAreAccepted(c: Context, ids: seq<Hash>)
    requires WellFormed(c, ids) && AllConfirmed(c, ids)
    ensures Run(c, ids).invalid == {} && Run(c, ids).pending == {}
  {
    if ids != [] {
      ConfirmedAreAccepted(c, ids[..|ids| - 1]);
    }
  }

  lemma {:induction false} TotalRemove(allTx: map<Hash, Tx>, s: seq<OutPoint>, k: nat)
    requires k < |s|
    ensures Total(allTx, s) == AmountOf(allTx, s[k]) + Total(allTx, s[..k] + s[k + 1..])
  {
    if k == 0 {
      assert s[..0] + s[1..] == s[1..];
    } else {
      TotalRemove(allTx, s[1..], k - 1);
      assert (s[..k] + s[k + 1..])[1..] == s[1..][..k - 1] + s[1..][k..];
    }
  }

  lemma {:induction false} TotalAppend(allTx: map<Hash, Tx>, s: seq<OutPoint>, o: OutPoint)
    ensures Total(allTx, s + [o]) == Total(allTx, s) + AmountOf(allTx, o)
  {
    if s != [] {
      assert (s + [o])[1..] == s[1..] + [o];
      TotalAppend(allTx, s[1..], o);
    }
  }

  lemma HeadIn<T>(s: seq<T>)
    ensures s != [] ==> s[0] in s
  {}

  lemma {:induction false} TotalOfSameSet(allTx: map<Hash, Tx>, a: seq<OutPoint>, b: seq<OutPoint>)
    requires NoDuplicates(a) && NoDuplicates(b) && forall o :: o in a <==> o in b
    ensures Total(allTx, a) == Total(allTx, b)
  {
    if a == [] {
      HeadIn(b);
    } else {
      assert a[0] in b;
      var k :| 0 <= k < |b| && b[k] == a[0];
      var rest := b[..k] + b[k + 1..];
      TotalRemove(allTx, b, k);
      forall o ensures o in a[1..] <==> o in rest {
        if o in a[1..] { assert o in a && o in b; }
        if o in rest { assert o in b && o in a; }
      }
      TotalOfSameSet(allTx, a[1..], rest);
    }
  }

  /** For lists of confirmed transactions the final unspent outputs and balance depend only on which
      transactions are listed. */
  lemma ConfirmedOrderIrrelevant(c: Context, ids: seq<Hash>, ids': seq<Hash>)
    requires WellFormed(c, ids) && WellFormed(c, ids') && (forall id :: id in ids <==> id in ids')
    requires AllConfirmed(c, ids)
    ensures var t, t' := Run(c, ids), Run(c, ids');
         && (forall o :: o in t.utxos <==> o in t'.utxos)
         && Total(c.allTx, t.utxos) == Total(c.allTx, t'.utxos)
  {
    var t, t' := Run(c, ids), Run(c, ids');
    ConfirmedAreAccepted(c, ids);
    ConfirmedAreAccepted(c, ids');
    if ids == [] {
      HeadIn(ids');
    } else {
      assert ids[0] in ids';
      UtxosExact(c, ids);
      UtxosExact(c, ids');
      forall o ensures Received(c, t, ids, o) == Received(c, t', ids', o) && SpentBy(c, t, ids, o) == SpentBy(c, t', ids', o) {}
    }
    TotalOfSameSet(c.allTx, t.utxos, t'.utxos);
  }

  // ---- Conflicting unconfirmed transactions

  ghost predicate SortedByHeight(height: map<Hash, nat>, ids: seq<Hash>)
    requires forall id :: id in ids ==> id in height
  {
    forall i, j :: 0 <= i < j < |ids| ==> height[ids[i]] <= height[ids[j]]
  }

  /** Verdicts on a transaction do not change as the list goes on. */
  lemma {:induction false} VerdictStable(c: Context, ids: seq<Hash>, n: nat)
    requires WellFormed(c, ids) && n <= |ids|
    ensures var t, t' := Run(c, ids[..n]), Run(c, ids);
         && t.spent <= t'.spent
         && forall id :: id in ids[..n] ==> (id in t.invalid <==> id in t'.invalid) && (id in t.pending <==> id in t'.pending)
  {
    if n == |ids| {
      assert ids[..n] == ids;
    } else {
      var before := ids[..|ids| - 1];
      VerdictStable(c, before, n);
      assert before[..n] == ids[..n];
    }
  }

  /** On a list sorted by height, two transactions that are not invalid and of which at least one is
      unconfirmed spend different outputs. */
  lemma ConflictExclusion(c: Context, ids: seq<Hash>, i: nat, j: nat)
    requires WellFormed(c, ids) && SortedByHeight(c.height, ids) && i < j < |ids|
    requires forall id :: id in ids ==> c.height[id] <= TX_UNCONFIRMED
    requires Unconfirmed(c, ids[i]) || Unconfirmed(c, ids[j])
    requires ids[i] !in Run(c, ids).invalid && ids[j] !in Run(c, ids).invalid
    ensures Spends(c.allTx[ids[i]]) !! Spends(c.allTx[ids[j]])
  {
    AcceptedInputsFree(c, ids, j);
    VerdictStable(c, ids, j);
    SetsExact(c, ids[..j]);
    assert ids[..j][i] == ids[i];
    forall o | o in Spends(c.allTx[ids[i]]) ensures o !in Spends(c.allTx[ids[j]]) {
      assert SpentBy(c, Run(c, ids[..j]), ids[..j], o);
    }
  }

  lemma AcceptedInputsFree(c: Context, ids: seq<Hash>, j: nat)
    requires WellFormed(c, ids) && j < |ids| && Unconfirmed(c, ids[j]) && ids[j] !in Run(c, ids).invalid
    ensures !Conflicts(Run(c, ids[..j]).spent, Run(c, ids[..j]).invalid, c.allTx[ids[j]])
  {
    VerdictStable(c, ids, j + 1);
    assert ids[..j + 1][..j] == ids[..j];
    assert ids[..j + 1][j] == ids[j];
  }

  predicate SpendsFrom(child: Tx, parent: Hash) {
    exists k :: 0 <= k < |child.inputs| && child.inputs[k].prev.txHash == parent
  }

  /** An unconfirmed child listed after an invalid parent is invalid; after a pending parent it is
      invalid or pending. */
  lemma VerdictInherited(c: Context, ids: seq<Hash>, i: nat, j: nat)
    requires WellFormed(c, ids) && i < j < |ids| && Unconfirmed(c, ids[j]) && SpendsFrom(c.allTx[ids[j]], ids[i])
    ensures ids[i] in Run(c, ids).invalid ==> ids[j] in Run(c, ids).invalid
    ensures ids[i] in Run(c, ids).pending ==> ids[j] in Run(c, ids).invalid || ids[j] in Run(c, ids).pending
  {
    hide NoDuplicates, OwnedOutputs, UsedKeys, Keep, Total, Spends;
    VerdictStable(c, ids, j);
    VerdictStable(c, ids, j + 1);
    assert ids[..j + 1][..j] == ids[..j];
    assert ids[..j + 1][j] == ids[j];
    assert ids[..j][i] == ids[i];
  }

  // ---- What is held back, and for how long

  /** A transaction whose inputs are not all final may be mined from this height and time on. */
  ghost predicate LockOver(c: Context, tx: Tx) {
    tx.lockTime <= c.now && (tx.lockTime < TX_MAX_LOCK_HEIGHT ==> tx.lockTime <= c.blockHeight + 1)
  }

  /** Small enough, no dust, no input that lets it be replaced, and no lock that is still on. */
  ghost predicate Relayable(c: Context, tx: Tx) {
    && tx.vsize <= TX_MAX_SIZE
    && (forall i :: 0 <= i < |tx.outputs| ==> tx.outputs[i].amount >= TX_MIN_OUTPUT_AMOUNT)
    && (forall i :: 0 <= i < |tx.inputs| ==> tx.inputs[i].sequence >= UINT32_MAX - 1)
    && (LockOver(c, tx) || forall i :: 0 <= i < |tx.inputs| ==> tx.inputs[i].sequence >= UINT32_MAX)
  }

  /** Some input spends from a transaction of the set. */
  ghost predicate SpendsAnyOf(tx: Tx, ids: set<Hash>) {
    exists i :: 0 <= i < |tx.inputs| && tx.inputs[i].prev.txHash in ids
  }

  lemma PendingIs(c: Context, pending: set<Hash>, tx: Tx)
    ensures IsPending(c, pending, tx) <==> !Relayable(c, tx) || SpendsAnyOf(tx, pending)
  {
    if IsPending(c, pending, tx) && !SpendsAnyOf(tx, pending) && tx.vsize <= TX_MAX_SIZE
       && forall i :: 0 <= i < |tx.outputs| ==> tx.outputs[i].amount >= TX_MIN_OUTPUT_AMOUNT {
      var i :| 0 <= i < |tx.inputs| && HoldsBack(tx.inputs[i], tx.lockTime, c.blockHeight, c.now, pending);
      assert tx.inputs[i].sequence < UINT32_MAX - 1 || (tx.inputs[i].sequence < UINT32_MAX && !LockOver(c, tx));
    }
    if SpendsAnyOf(tx, pending) {
      var i :| 0 <= i < |tx.inputs| && tx.inputs[i].prev.txHash in pending;
      assert HoldsBack(tx.inputs[i], tx.lockTime, c.blockHeight, c.now, pending);
    }
    if i :| 0 <= i < |tx.inputs| && (tx.inputs[i].sequence < UINT32_MAX - 1 || (tx.inputs[i].sequence < UINT32_MAX && !LockOver(c, tx))) {
      assert HoldsBack(tx.inputs[i], tx.lockTime, c.blockHeight, c.now, pending);
    }
  }

  /** The verdict on every listed transaction, from the tally of those before it: confirmed ones are accepted;
      others are invalid exactly when an input is spent already or comes from an invalid one, and pending
      exactly when they are valid but not fit for relaying, or spend from a pending one. */
  lemma VerdictIs(c: Context, ids: seq<Hash>, n: nat)
    requires WellFormed(c, ids) && n < |ids|
    ensures var t, tx := Run(c, ids[..n]), c.allTx[ids[n]];
            var conflict := SpendsAnyOf(tx, t.invalid) || exists i :: 0 <= i < |tx.inputs| && tx.inputs[i].prev in t.spent;
            var held := !Relayable(c, tx) || SpendsAnyOf(tx, t.pending);
         && (ids[n] in Run(c, ids).invalid <==> Unconfirmed(c, ids[n]) && conflict)
         && (ids[n] in Run(c, ids).pending <==> Unconfirmed(c, ids[n]) && !conflict && held)
  {
    hide Relayable, NoDuplicates, OwnedOutputs, UsedKeys, Keep, Total, Spends, IsPending;
    VerdictStable(c, ids, n + 1);
    var before := ids[..n];
    assert ids[..n + 1][..n] == before && ids[..n + 1][n] == ids[n];
    PendingIs(c, Run(c, before).pending, c.allTx[ids[n]]);
    NotJudgedYet(c, ids, n);
  }

  lemma NotJudgedYet(c: Context, ids: seq<Hash>, n: nat)
    requires WellFormed(c, ids) && n < |ids|
    ensures ids[n] !in Run(c, ids[..n]).invalid && ids[n] !in Run(c, ids[..n]).pending
  {
    hide Run;
    VerdictsListed(c, ids[..n]);
    forall k | 0 <= k < n ensures ids[..n][k] != ids[n] { assert ids[k] != ids[n]; }
  }

  lemma {:induction false} VerdictsListed(c: Context, ids: seq<Hash>)
    requires forall id :: id in ids ==> id in c.allTx && id in c.height
    ensures forall id :: id in Run(c, ids).invalid || id in Run(c, ids).pending ==> id in ids
  {
    hide OwnedOutputs, UsedKeys, Keep, Total, Spends, IsPending, Conflicts;
    if ids != [] { VerdictsListed(c, ids[..|ids| - 1]); }
  }

  /** Waiting only releases: with more blocks and at a later time the same transactions are invalid, and
      none is pending that was not. */
  lemma {:induction false} WaitingReleases(c: Context, ids: seq<Hash>, blockHeight: nat, now: nat)
    requires (forall id :: id in ids ==> id in c.allTx && id in c.height) && blockHeight >= c.blockHeight && now >= c.now
    ensures var t, t' := Run(c, ids), Run(c.(blockHeight := blockHeight, now := now), ids);
         t'.invalid == t.invalid && t'.spent == t.spent && t'.pending <= t.pending
  {
    hide OwnedOutputs, UsedKeys, Keep, Total, Spends, IsPending, Conflicts;
    if ids != [] {
      var before, tx := ids[..|ids| - 1], c.allTx[ids[|ids| - 1]];
      var c' := c.(blockHeight := blockHeight, now := now);
      WaitingReleases(c, before, blockHeight, now);
      PendingIs(c, Run(c, before).pending, tx);
      PendingIs(c', Run(c', before).pending, tx);
    }
  }

  /** What went out, and what came in: the falls and the rises of the history. */
  function Falls(from: nat, history: seq<nat>): nat
    decreases |history|
  {
    if history == [] then 0 else (if history[0] < from then from - history[0] else 0) + Falls(history[0], history[1..])
  }

  function Rises(from: nat, history: seq<nat>): nat
    decreases |history|
  {
    if history == [] then 0 else (if history[0] > from then history[0] - from else 0) + Rises(history[0], history[1..])
  }

  lemma {:induction false} HistorySnoc(from: nat, history: seq<nat>, x: nat)
    ensures var last := if history == [] then from else history[|history| - 1];
         && Falls(from, history + [x]) == Falls(from, history) + (if x < last then last - x else 0)
         && Rises(from, history + [x]) == Rises(from, history) + (if x > last then x - last else 0)
    decreases |history|
  {
    if history != [] {
      HistorySnoc(history[0], history[1..], x);
      assert (history + [x])[1..] == history[1..] + [x];
    }
  }

  /** totalSent adds up the falls of the balance, and totalReceived its rises. */
  lemma {:induction false} SentAndReceived(c: Context, ids: seq<Hash>)
    requires WellFormed(c, ids)
    ensures Run(c, ids).sent == Falls(0, Run(c, ids).history) && Run(c, ids).received == Rises(0, Run(c, ids).history)
    ensures |Run(c, ids).history| == |ids|
    ensures Total(c.allTx, Run(c, ids).utxos) == if ids == [] then 0 else Run(c, ids).history[|ids| - 1]
  {
    hide OwnedOutputs, UsedKeys, Keep, Spends, IsPending, Conflicts, Falls, Rises;
    if ids == [] {
      NoFalls();
    } else {
      var before, id := ids[..|ids| - 1], ids[|ids| - 1];
      SentAndReceived(c, before);
      HistorySnoc(0, Run(c, before).history, Total(c.allTx, Run(c, ids).utxos));
    }
  }

  lemma NoFalls()
    ensures Falls(0, []) == 0 && Rises(0, []) == 0
  {}
}
