/** The wallet of core/bitcoin/BRWallet.c.  Every public function runs under the wallet's lock, so
    each is one atomic step here. */
module Wallet {
  import opened Blocks
  import opened Ledger
  import opened TxLimits
  import opened TxOrder
  import opened AddressChain

  const SEQUENCE_GAP_LIMIT_EXTERNAL: nat := 10
  const SEQUENCE_GAP_LIMIT_INTERNAL: nat := 5

  /** True if tx pays to a wallet key or spends an output that does. */
  predicate Concerns(allTx: map<Hash, Tx>, keys: set<Pkh>, tx: Tx) {
    || (exists j :: 0 <= j < |tx.outputs| && tx.outputs[j].pkh.Some? && tx.outputs[j].pkh.value in keys)
    || (exists k :: 0 <= k < |tx.inputs| && PaysFrom(allTx, keys, tx.inputs[k].prev))
  }

  /** A transaction has the verdict of what it spends from, or a worse one. */
  ghost predicate Inherits(tx: Tx, list: seq<Hash>, invalid: set<Hash>, pending: set<Hash>) {
    forall p :: p in list && SpendsFrom(tx, p) ==>
      (p in invalid ==> tx.hash in invalid) && (p in pending ==> tx.hash in invalid || tx.hash in pending)
  }

  /** An unconfirmed transaction that stands behind its parents inherits their verdicts. */
  lemma BehindInherits(c: Context, list: seq<Hash>, was: seq<Hash>, tx: Tx)
    requires WellFormed(c, list) && tx.hash in list && c.allTx[tx.hash] == tx && Unconfirmed(c, tx.hash)
    requires BehindParents(c.allTx, c.height, list, tx.hash)
    requires (forall p :: p in was ==> p in list) && tx.hash !in was && forall p :: p in list ==> c.height[p] <= TX_UNCONFIRMED
    ensures Inherits(tx, was, Run(c, list).invalid, Run(c, list).pending)
  {
    hide Run, SpendsFrom, NoDuplicates;
    forall p | p in was && SpendsFrom(tx, p)
      ensures p in Run(c, list).invalid ==> tx.hash in Run(c, list).invalid
      ensures p in Run(c, list).pending ==> tx.hash in Run(c, list).invalid || tx.hash in Run(c, list).pending
    {
      assert Before(list, p, tx.hash);
      var i, j :| 0 <= i < j < |list| && list[i] == p && list[j] == tx.hash;
      VerdictInherited(c, list, i, j);
    }
  }

  /** Nothing concerns the wallet that pays none of its keys and spends no known output that does. */
  lemma StrangersDoNot(allTx: map<Hash, Tx>, keys: set<Pkh>, tx: Tx)
    requires forall j :: 0 <= j < |tx.outputs| && tx.outputs[j].pkh.Some? ==> tx.outputs[j].pkh.value !in keys
    requires forall i :: 0 <= i < |tx.inputs| ==>
      var o := tx.inputs[i].prev;
      o.txHash in allTx && o.index < |allTx[o.txHash].outputs| ==>
        var pkh := allTx[o.txHash].outputs[o.index].pkh; pkh.None? || pkh.value !in keys
    ensures !Concerns(allTx, keys, tx)
  {
    forall k | 0 <= k < |tx.inputs| ensures !PaysFrom(allTx, keys, tx.inputs[k].prev) {}
  }

  /** Whoever spends an unspent output of the wallet concerns it. */
  lemma SpenderConcerns(c: Context, ids: seq<Hash>, tx: Tx, k: nat)
    requires WellFormed(c, ids) && k < |tx.inputs| && tx.inputs[k].prev in Run(c, ids).utxos
    ensures Concerns(c.allTx, c.owned, tx)
  {
    UtxosInvariant(c, ids);
    hide Run;
    var o := tx.inputs[k].prev;
    assert Received(c, Run(c, ids), ids, o);
    assert PaysFrom(c.allTx, c.owned, o);
  }

  predicate PaysFrom(allTx: map<Hash, Tx>, keys: set<Pkh>, o: OutPoint) {
    && o.txHash in allTx && o.index < |allTx[o.txHash].outputs|
    && allTx[o.txHash].outputs[o.index].pkh.Some? && allTx[o.txHash].outputs[o.index].pkh.value in keys
  }

  /** What is known about transactions. */
  datatype Book = Book(allTx: map<Hash, Tx>, height: map<Hash, nat>, timestamp: map<Hash, nat>)

  ghost predicate Changes(b: Book, h: nat, time: nat, id: Hash) {
    id in b.allTx && id in b.height && id in b.timestamp && !(b.height[id] == h && b.timestamp[id] == time)
  }

  /** The wallet's transaction id gets a new height or timestamp. */
  ghost predicate Updates(b: Book, keys: set<Pkh>, h: nat, time: nat, id: Hash) {
    Changes(b, h, time, id) && Concerns(b.allTx, keys, b.allTx[id])
  }

  function Added(b: Book, tx: Tx, h: nat, time: nat): Book {
    Book(b.allTx[tx.hash := tx], b.height[tx.hash := h], b.timestamp[tx.hash := time])
  }

  /** A new unconfirmed transaction is kept whether it is the wallet's or not. */
  predicate Remembered(allTx: map<Hash, Tx>, tx: Tx, h: nat, signed: bool) {
    signed && tx.hash !in allTx && h == TX_UNCONFIRMED
  }

  /** A new transaction comes no lower than what it spends from, and no higher than its spenders. */
  ghost predicate InOrder(b: Book, list: seq<Hash>, tx: Tx, h: nat, listed: bool) {
    && (forall s :: s in list && s in b.allTx && s in b.height && SpendsFrom(b.allTx[s], tx.hash) ==> b.height[s] >= h)
    && (listed ==> forall id :: id in b.allTx && id in b.height && SpendsFrom(tx, id) ==> h >= b.height[id])
  }

  /** Somebody else's transaction id gets confirmed, and is no longer of interest. */
  ghost predicate Drops(b: Book, keys: set<Pkh>, h: nat, time: nat, id: Hash) {
    Changes(b, h, time, id) && !Concerns(b.allTx, keys, b.allTx[id]) && h != TX_UNCONFIRMED
  }

  /** The book after the given transactions got the given height and time. */
  ghost predicate Swept(was: Book, keys: set<Pkh>, h: nat, time: nat, ids: seq<Hash>, b: Book) {
    && (forall id :: id in b.allTx <==> id in was.allTx && !(id in ids && Drops(was, keys, h, time, id)))
    && (forall id :: id in b.allTx ==>
         && id in b.height && id in b.timestamp && id in was.height && id in was.timestamp
         && b.allTx[id] == was.allTx[id]
         && b.height[id] == (if id in ids then h else was.height[id])
         && b.timestamp[id] == (if id in ids then time else was.timestamp[id]))
  }

  /** hashes are the wallet's transactions among ids that change, each once. */
  ghost predicate Updated(was: Book, keys: set<Pkh>, h: nat, time: nat, ids: seq<Hash>, hashes: seq<Hash>) {
    NoDuplicates(hashes) && forall id :: id in hashes <==> id in ids && Updates(was, keys, h, time, id)
  }

  lemma UpdatedOne(was: Book, keys: set<Pkh>, h: nat, time: nat, ids: seq<Hash>, hashes: seq<Hash>, id: Hash)
    requires Updated(was, keys, h, time, ids, hashes)
    ensures Updated(was, keys, h, time, ids + [id], if Updates(was, keys, h, time, id) && id !in ids then hashes + [id] else hashes)
  {
    hide Updates;
  }

  /** Changing one of these transactions makes the tally out of date. */
  predicate Stale(hashes: seq<Hash>, pending: set<Hash>, invalid: set<Hash>) {
    exists id :: id in hashes && (id in pending || id in invalid)
  }

  lemma StaleOne(hashes: seq<Hash>, pending: set<Hash>, invalid: set<Hash>, id: Hash)
    ensures Stale(hashes + [id], pending, invalid) <==> Stale(hashes, pending, invalid) || id in pending || id in invalid
  {
    if id in pending || id in invalid { assert id in hashes + [id]; }
  }

  /** What that means for the listed transactions. */
  ghost predicate NewHeights(was: map<Hash, nat>, height: map<Hash, nat>, list: seq<Hash>, ids: seq<Hash>, h: nat) {
    forall id :: id in list ==> id in was && id in height && height[id] == if id in ids then h else was[id]
  }

  lemma ListedHeights(was: Book, b: Book, keys: set<Pkh>, list: seq<Hash>, h: nat, time: nat, ids: seq<Hash>)
    requires Swept(was, keys, h, time, ids, b) && forall id :: id in list ==> id in b.allTx
    ensures NewHeights(was.height, b.height, list, ids, h)
  {
    hide Drops;
  }

  /** Which transactions concern the wallet does not change. */
  ghost predicate SameConcerns(was: Book, keys: set<Pkh>, b: Book) {
    forall id :: id in b.allTx && id in was.allTx ==> (Concerns(b.allTx, keys, b.allTx[id]) <==> Concerns(was.allTx, keys, was.allTx[id]))
  }

  /** What is left to update once some transactions have been gone through. */
  lemma LeftToUpdate(was: Book, keys: set<Pkh>, h: nat, time: nat, ids: seq<Hash>, b: Book, id: Hash)
    requires Swept(was, keys, h, time, ids, b) && SameConcerns(was, keys, b)
    ensures Updates(b, keys, h, time, id) <==> Updates(was, keys, h, time, id) && id !in ids
    ensures Drops(b, keys, h, time, id) <==> Drops(was, keys, h, time, id) && id !in ids
  {
    hide Concerns;
  }

  lemma SweepOne(was: Book, mid: Book, b: Book, keys: set<Pkh>, h: nat, time: nat, ids: seq<Hash>, id: Hash)
    requires Swept(was, keys, h, time, ids, mid) && SameConcerns(was, keys, mid)
    requires Swept(mid, keys, h, time, [id], b) && SameConcerns(mid, keys, b)
    ensures Swept(was, keys, h, time, ids + [id], b) && SameConcerns(was, keys, b)
  {
    LeftToUpdate(was, keys, h, time, ids, mid, id);
    hide Concerns, Drops, Updates;
  }

  /** A transaction as it was saved; one that is not signed is skipped. */
  datatype StoredTx = StoredTx(tx: Tx, height: nat, timestamp: nat, signed: bool)

  ghost predicate Storable(stored: seq<StoredTx>, rank: Hash -> nat) {
    forall i :: 0 <= i < |stored| ==>
      && stored[i].height <= TX_UNCONFIRMED
      && forall k :: 0 <= k < |stored[i].tx.inputs| ==> rank(stored[i].tx.inputs[k].prev.txHash) < rank(stored[i].tx.hash)
  }

  /** The first of several with the same hash counts. */
  function Loaded(stored: seq<StoredTx>): Book {
    if stored == [] then Book(map[], map[], map[]) else
      var b, s := Loaded(stored[..|stored| - 1]), stored[|stored| - 1];
      if s.signed && s.tx.hash !in b.allTx then Added(b, s.tx, s.height, s.timestamp) else b
  }

  lemma LoadedSnoc(stored: seq<StoredTx>, i: nat)
    requires i < |stored|
    ensures var b, s := Loaded(stored[..i]), stored[i];
         Loaded(stored[..i + 1]) == if s.signed && s.tx.hash !in b.allTx then Added(b, s.tx, s.height, s.timestamp) else b
  {
    assert stored[..i + 1][..i] == stored[..i];
  }

  /** Everything known is listed, once, and sorted. */
  ghost predicate Listed(b: Book, rank: Hash -> nat, list: seq<Hash>) {
    && GoodMaps(b.allTx, b.height, b.timestamp, rank) && NoDuplicates(list)
    && (forall id :: id in list <==> id in b.allTx) && SortedByHeight(b.height, list)
  }

  lemma AddedMaps(b: Book, rank: Hash -> nat, list: seq<Hash>, tx: Tx, h: nat, time: nat)
    requires Listed(b, rank, list) && tx.hash !in b.allTx && h <= TX_UNCONFIRMED
    requires forall k :: 0 <= k < |tx.inputs| ==> rank(tx.inputs[k].prev.txHash) < rank(tx.hash)
    ensures var b' := Added(b, tx, h, time);
      && GoodMaps(b'.allTx, b'.height, b'.timestamp, rank) && Acyclic(b'.allTx, rank) && b'.allTx.Keys <= b'.height.Keys
      && tx.hash !in list && (forall id :: id in list ==> id in b'.allTx && id in b'.height) && SortedByHeight(b'.height, list)
      && NoDuplicates(list) && forall id :: id in b'.allTx <==> id in list || id == tx.hash
  {}

  lemma ListedMore(b: Book, rank: Hash -> nat, internal: seq<Pkh>, external: seq<Pkh>, list: seq<Hash>, tx: Tx, h: nat, time: nat)
    requires Listed(b, rank, list) && tx.hash !in b.allTx && h <= TX_UNCONFIRMED
    requires forall k :: 0 <= k < |tx.inputs| ==> rank(tx.inputs[k].prev.txHash) < rank(tx.hash)
    ensures var b' := Added(b, tx, h, time);
      && tx.hash !in list && (forall id :: id in list ==> id in b'.allTx) && Acyclic(b'.allTx, rank) && b'.allTx.Keys <= b'.height.Keys
      && Listed(b', rank, Inserted(b'.allTx, b'.height, rank, internal, external, list, tx.hash))
  {
    AddedMaps(b, rank, list, tx, h, time);
    var b' := Added(b, tx, h, time);
    hide GoodMaps, Acyclic, Inserted, NoDuplicates, SortedByHeight, Added;
    assert tx.hash in b'.allTx;
    InsertedElements(b'.allTx, b'.height, rank, internal, external, list, tx.hash);
    InsertedSorted(b'.allTx, b'.height, rank, internal, external, list, tx.hash);
  }

  lemma ListedIs(b: Book, rank: Hash -> nat, list: seq<Hash>, keys: set<Pkh>, blockHeight: nat, now: nat)
    requires Listed(b, rank, list)
    ensures WellFormed(Context(b.allTx, b.height, keys, blockHeight, now), list) && forall id :: id in list ==> id in b.allTx
    ensures GoodMaps(b.allTx, b.height, b.timestamp, rank)
    ensures GoodList(b.allTx, b.height, keys, list) <==> forall id :: id in list ==> id in b.allTx && Concerns(b.allTx, keys, b.allTx[id])
  {
    hide Concerns;
  }

  lemma DerivedNone(derive: Derivation)
    ensures Elements<Pkh>([]) == {} && Derived(derive, true, []) && Derived(derive, false, [])
  {}

  /** Every key that a listed transaction pays counts as used. */
  lemma LoadedNothing(rank: Hash -> nat, used: set<Pkh>)
    ensures Loaded([]) == Book(map[], map[], map[]) && Listed(Loaded([]), rank, []) && Mentioned(map[], [], used)
  {}

  ghost predicate Mentioned(allTx: map<Hash, Tx>, list: seq<Hash>, used: set<Pkh>) {
    forall id, j :: id in list && id in allTx && 0 <= j < |allTx[id].outputs| && allTx[id].outputs[j].pkh.Some? ==>
      allTx[id].outputs[j].pkh.value in used
  }

  lemma MentionedWith(allTx: map<Hash, Tx>, list: seq<Hash>, used: set<Pkh>, tx: Tx)
    requires Mentioned(allTx, list, used) && tx.hash !in list
    ensures Mentioned(allTx[tx.hash := tx], list, used)
  {}

  lemma MentionedMore(allTx: map<Hash, Tx>, list: seq<Hash>, list': seq<Hash>, used: set<Pkh>, used': set<Pkh>, tx: Tx)
    requires Mentioned(allTx, list, used) && used <= used' && (tx.hash in allTx ==> allTx[tx.hash] == tx)
    requires forall id :: id in list' ==> id in list || id == tx.hash
    requires forall k :: 0 <= k < |tx.outputs| && tx.outputs[k].pkh.Some? ==> tx.outputs[k].pkh.value in used'
    ensures Mentioned(allTx, list', used')
  {}

  lemma {:induction false} UsedAreMentioned(c: Context, ids: seq<Hash>, mentioned: set<Pkh>)
    requires WellFormed(c, ids) && Mentioned(c.allTx, ids, mentioned)
    ensures Run(c, ids).used <= mentioned
  {
    if ids != [] {
      var id := ids[|ids| - 1];
      UsedAreMentioned(c, ids[..|ids| - 1], mentioned);
      UsedKeysIs(c.owned, c.allTx[id], |c.allTx[id].outputs|);
      assert id in ids;
    }
  }

  lemma NoneUsed(chain: seq<Pkh>, used: set<Pkh>)
    ensures used == {} ==> AfterLastUsed(chain, used) == 0
  {}

  /** With fewer used keys there is no smaller gap. */
  lemma {:induction false} FewerUsed(chain: seq<Pkh>, used: set<Pkh>, mentioned: set<Pkh>)
    requires used <= mentioned
    ensures AfterLastUsed(chain, used) <= AfterLastUsed(chain, mentioned)
  {
    if chain != [] { FewerUsed(chain[..|chain| - 1], used, mentioned); }
  }

  /** Forgetting a transaction that does not concern the wallet changes nothing for the others. */
  lemma ConcernsWithout(allTx: map<Hash, Tx>, keys: set<Pkh>, gone: Hash, tx: Tx)
    requires gone in allTx && !Concerns(allTx, keys, allTx[gone])
    ensures Concerns(allTx - {gone}, keys, tx) == Concerns(allTx, keys, tx)
  {
    forall k | 0 <= k < |tx.inputs|
      ensures PaysFrom(allTx - {gone}, keys, tx.inputs[k].prev) == PaysFrom(allTx, keys, tx.inputs[k].prev)
    {}
  }

  ghost predicate GoodMaps(allTx: map<Hash, Tx>, height: map<Hash, nat>, timestamp: map<Hash, nat>, rank: Hash -> nat) {
    && allTx.Keys == height.Keys == timestamp.Keys
    && (forall id :: id in allTx ==> allTx[id].hash == id && height[id] <= TX_UNCONFIRMED)
    && Acyclic(allTx, rank)
  }

  ghost predicate GoodList(allTx: map<Hash, Tx>, height: map<Hash, nat>, keys: set<Pkh>, list: seq<Hash>) {
    && NoDuplicates(list)
    && (forall id :: id in list ==> id in allTx && id in height && Concerns(allTx, keys, allTx[id]))
    && SortedByHeight(height, list)
  }

  function HeightsAfter(height: map<Hash, nat>, list: seq<Hash>, h: nat): map<Hash, nat> {
    map id | id in height :: if id in list && height[id] > h then TX_UNCONFIRMED else height[id]
  }

  lemma UnconfirmKeepsValid(allTx: map<Hash, Tx>, was: map<Hash, nat>, timestamp: map<Hash, nat>, rank: Hash -> nat,
                            keys: set<Pkh>, list: seq<Hash>, h: nat)
    requires GoodMaps(allTx, was, timestamp, rank) && GoodList(allTx, was, keys, list)
    ensures GoodMaps(allTx, HeightsAfter(was, list, h), timestamp, rank)
    ensures GoodList(allTx, HeightsAfter(was, list, h), keys, list)
  {}

  lemma InsertKeepsValid(allTx: map<Hash, Tx>, height: map<Hash, nat>, timestamp: map<Hash, nat>, rank: Hash -> nat,
                         keys: set<Pkh>, internal: seq<Pkh>, external: seq<Pkh>, list: seq<Hash>, id: Hash)
    requires GoodMaps(allTx, height, timestamp, rank) && GoodList(allTx, height, keys, list)
    requires id in allTx && id !in list && Concerns(allTx, keys, allTx[id])
    ensures GoodList(allTx, height, keys, Inserted(allTx, height, rank, internal, external, list, id))
  {
    InsertedElements(allTx, height, rank, internal, external, list, id);
    InsertedSorted(allTx, height, rank, internal, external, list, id);
  }

  /** Learning of a new transaction keeps the state good. */
  lemma AddKeepsValid(allTx: map<Hash, Tx>, height: map<Hash, nat>, timestamp: map<Hash, nat>, rank: Hash -> nat,
                      keys: set<Pkh>, list: seq<Hash>, tx: Tx, h: nat, t: nat)
    requires GoodMaps(allTx, height, timestamp, rank) && GoodList(allTx, height, keys, list)
    requires tx.hash !in allTx && h <= TX_UNCONFIRMED
    requires forall k :: 0 <= k < |tx.inputs| ==> rank(tx.inputs[k].prev.txHash) < rank(tx.hash)
    ensures GoodMaps(allTx[tx.hash := tx], height[tx.hash := h], timestamp[tx.hash := t], rank)
    ensures GoodList(allTx[tx.hash := tx], height[tx.hash := h], keys, list)
  {
    forall id | id in list ensures Concerns(allTx[tx.hash := tx], keys, allTx[id]) {
      ConcernsWith(allTx, keys, tx, allTx[id]);
    }
  }

  lemma ConcernsWith(allTx: map<Hash, Tx>, keys: set<Pkh>, added: Tx, tx: Tx)
    requires added.hash !in allTx
    ensures Concerns(allTx, keys, tx) ==> Concerns(allTx[added.hash := added], keys, tx)
  {
    forall k | 0 <= k < |tx.inputs| && PaysFrom(allTx, keys, tx.inputs[k].prev)
      ensures PaysFrom(allTx[added.hash := added], keys, tx.inputs[k].prev)
    {}
  }

  /** Taking a transaction out of the list and giving it a new height keeps the state good. */
  lemma TakeOutKeepsValid(allTx: map<Hash, Tx>, height: map<Hash, nat>, timestamp: map<Hash, nat>, rank: Hash -> nat,
                          keys: set<Pkh>, list: seq<Hash>, id: Hash, h: nat, t: nat)
    requires GoodMaps(allTx, height, timestamp, rank) && GoodList(allTx, height, keys, list) && id in allTx && h <= TX_UNCONFIRMED
    ensures GoodMaps(allTx, height[id := h], timestamp[id := t], rank)
    ensures GoodList(allTx, height[id := h], keys, Without(list, {id})) && id !in Without(list, {id})
  {
    WithoutIs(list, {id});
    WithoutKeepsOrder(list, {id}, height);
  }

  /** Forgetting a transaction that is not the wallet's keeps the state good. */
  lemma ForgetKeepsValid(allTx: map<Hash, Tx>, height: map<Hash, nat>, timestamp: map<Hash, nat>, rank: Hash -> nat,
                         keys: set<Pkh>, list: seq<Hash>, id: Hash)
    requires GoodMaps(allTx, height, timestamp, rank) && GoodList(allTx, height, keys, list)
    requires id in allTx && !Concerns(allTx, keys, allTx[id])
    ensures GoodMaps(allTx - {id}, height - {id}, timestamp - {id}, rank) && GoodList(allTx - {id}, height - {id}, keys, list)
  {
    forall x | x in list ensures Concerns(allTx - {id}, keys, allTx[x]) {
      ConcernsWithout(allTx, keys, id, allTx[x]);
    }
  }

  lemma Spliced(was: seq<Hash>, list: seq<Hash>, i: nat, id: Hash)
    requires i <= |was| && |list| == |was| + 1 && list[i] == id
    requires forall k :: 0 <= k < i ==> list[k] == was[k]
    requires forall k :: i < k <= |was| ==> list[k] == was[k - 1]
    ensures list == was[..i] + [id] + was[i..]
  {}

  class Wallet {
    var allTx: map<Hash, Tx>
    var height: map<Hash, nat>
    var timestamp: map<Hash, nat>
    var transactions: seq<Hash>
    var internalChain: seq<Pkh>
    var externalChain: seq<Pkh>
    var allPKH: set<Pkh>
    var blockHeight: nat

    var utxos: seq<OutPoint>
    var spentOutputs: set<OutPoint>
    var invalidTx: set<Hash>
    var pendingTx: set<Hash>
    var usedPKH: set<Pkh>
    var totalSent: nat
    var totalReceived: nat
    var balanceHist: seq<nat>
    var balance: nat

    /** Witness that transaction ancestry has no cycles. */
    ghost const rank: Hash -> nat

    const derive: Derivation

    /** BRWalletNew: list the signed stored transactions, fill the address chains up to the gap limits,
        and compute the balance.  The code lists them unseen; the wallet is Valid exactly if all of them
        concern it. */
    constructor (stored: seq<StoredTx>, derive: Derivation, ghost rank: Hash -> nat, now: nat)
      requires DistinctKeys(derive) && Storable(stored, rank)
      ensures this.derive == derive && this.rank == rank && blockHeight == 0
      ensures Records() == Loaded(stored) && Listed(Records(), rank, transactions)
      ensures KeysValid() && Tallied(now)
      ensures HasGap(externalChain, SEQUENCE_GAP_LIMIT_EXTERNAL, false) && HasGap(internalChain, SEQUENCE_GAP_LIMIT_INTERNAL, true)
      ensures Valid() <==> forall id :: id in transactions ==> Concerns(allTx, allPKH, allTx[id])
      ensures stored == [] ==> |externalChain| <= SEQUENCE_GAP_LIMIT_EXTERNAL && |internalChain| <= SEQUENCE_GAP_LIMIT_INTERNAL
    {
      this.derive, this.rank := derive, rank;
      allTx, height, timestamp, transactions, blockHeight := map[], map[], map[], [], 0;
      internalChain, externalChain, allPKH := [], [], {};
      utxos, spentOutputs, invalidTx, pendingTx, usedPKH := [], {}, {}, {}, {};
      totalSent, totalReceived, balanceHist, balance := 0, 0, [], 0;
      new;
      LoadWallet(stored, now);
    }

    method LoadWallet(stored: seq<StoredTx>, now: nat)
      requires DistinctKeys(derive) && Storable(stored, rank) && Records() == Book(map[], map[], map[]) && transactions == []
      requires internalChain == [] && externalChain == [] && allPKH == {}
      modifies this
      ensures Records() == Loaded(stored) && Listed(Records(), rank, transactions)
      ensures KeysValid() && Tallied(now) && blockHeight == old(blockHeight)
      ensures HasGap(externalChain, SEQUENCE_GAP_LIMIT_EXTERNAL, false) && HasGap(internalChain, SEQUENCE_GAP_LIMIT_INTERNAL, true)
      ensures Valid() <==> forall id :: id in transactions ==> Concerns(allTx, allPKH, allTx[id])
      ensures stored == [] && old(usedPKH) == {} ==>
        |externalChain| <= SEQUENCE_GAP_LIMIT_EXTERNAL && |internalChain| <= SEQUENCE_GAP_LIMIT_INTERNAL
    {
      hide GoodMaps, GoodList, Listed, Loaded, Mentioned, Derived, DistinctKeys, AfterLastUsed, Elements;
      hide Concerns, Run, Total, NoDuplicates, WellFormed, Storable, HasGap, Tallied;
      DerivedNone(derive);
      LoadAll(stored);
      RefillGaps(true);
      NoneUsed(externalChain, usedPKH);
      NoneUsed(internalChain, usedPKH);
      ListedIs(Records(), rank, transactions, allPKH, blockHeight, now);
      FirstTally(now);
    }

    /** The tally uses no key that the loaded transactions do not mention, so the gaps stay. */
    method FirstTally(now: nat)
      requires WellFormed(ContextAt(now), transactions) && Mentioned(allTx, transactions, usedPKH)
      requires HasGap(externalChain, SEQUENCE_GAP_LIMIT_EXTERNAL, false) && HasGap(internalChain, SEQUENCE_GAP_LIMIT_INTERNAL, true)
      modifies this`utxos, this`spentOutputs, this`invalidTx, this`pendingTx, this`usedPKH
      modifies this`totalSent, this`totalReceived, this`balanceHist, this`balance
      ensures Tallied(now)
      ensures HasGap(externalChain, SEQUENCE_GAP_LIMIT_EXTERNAL, false) && HasGap(internalChain, SEQUENCE_GAP_LIMIT_INTERNAL, true)
    {
      hide AfterLastUsed, Run, Total, WellFormed, Mentioned;
      ghost var mentioned := usedPKH;
      UsedAreMentioned(ContextAt(now), transactions, mentioned);
      UpdateBalance(now);
      FewerUsed(externalChain, usedPKH, mentioned);
      FewerUsed(internalChain, usedPKH, mentioned);
    }

    /** The code frees a wallet that its first stored transaction does not concern. */
    static method New(stored: seq<StoredTx>, derive: Derivation, ghost rank: Hash -> nat, now: nat) returns (wallet: Wallet, mine: bool)
      requires DistinctKeys(derive) && Storable(stored, rank)
      ensures fresh(wallet) && wallet.Records() == Loaded(stored) && wallet.KeysValid() && Listed(wallet.Records(), rank, wallet.transactions)
      ensures wallet.rank == rank && wallet.Tallied(now)
      ensures mine <==> stored == [] || Concerns(wallet.allTx, wallet.allPKH, stored[0].tx)
    {
      wallet := new Wallet(stored, derive, rank, now);
      mine := true;
      if stored != [] { mine := wallet.ContainsTx(stored[0].tx); }
    }

    method LoadAll(stored: seq<StoredTx>)
      requires Storable(stored, rank) && Records() == Book(map[], map[], map[]) && transactions == []
      modifies this`allTx, this`height, this`timestamp, this`transactions, this`usedPKH
      ensures Records() == Loaded(stored) && Listed(Records(), rank, transactions)
      ensures Mentioned(allTx, transactions, usedPKH) && (stored == [] ==> usedPKH == old(usedPKH))
    {
      LoadedNothing(rank, usedPKH);
      hide Listed, Loaded, Mentioned, Added;
      var i := 0;
      while i < |stored|
        invariant i <= |stored| && Records() == Loaded(stored[..i]) && Listed(Records(), rank, transactions)
        invariant Mentioned(allTx, transactions, usedPKH) && (i == 0 ==> usedPKH == old(usedPKH))
      {
        LoadedSnoc(stored, i);
        var s := stored[i];
        if s.signed && s.tx.hash !in allTx { LoadOne(s.tx, s.height, s.timestamp); }
        i := i + 1;
      }
      assert stored[..i] == stored;
    }

    method LoadOne(tx: Tx, h: nat, time: nat)
      requires Listed(Records(), rank, transactions) && Mentioned(allTx, transactions, usedPKH)
      requires tx.hash !in allTx && h <= TX_UNCONFIRMED && forall k :: 0 <= k < |tx.inputs| ==> rank(tx.inputs[k].prev.txHash) < rank(tx.hash)
      modifies this`allTx, this`height, this`timestamp, this`transactions, this`usedPKH
      ensures Records() == Added(old(Records()), tx, h, time)
      ensures Listed(Records(), rank, transactions) && Mentioned(allTx, transactions, usedPKH)
    {
      hide Listed, Inserted, Mentioned, GoodMaps, Acyclic;
      ghost var was, used, b := transactions, usedPKH, Added(Records(), tx, h, time);
      ListedMore(Records(), rank, internalChain, externalChain, transactions, tx, h, time);
      MentionedWith(allTx, was, usedPKH, tx);
      InsertedElements(b.allTx, b.height, rank, internalChain, externalChain, was, tx.hash);
      allTx, height, timestamp := allTx[tx.hash := tx], height[tx.hash := h], timestamp[tx.hash := time];
      InsertTx(tx.hash);
      MarkUsed(tx);
      MentionedMore(b.allTx, was, transactions, used, usedPKH, tx);
    }

    /** Count every key that tx pays as used. */
    method MarkUsed(tx: Tx)
      modifies this`usedPKH
      ensures old(usedPKH) <= usedPKH && forall k :: 0 <= k < |tx.outputs| && tx.outputs[k].pkh.Some? ==> tx.outputs[k].pkh.value in usedPKH
    {
      var j := 0;
      while j < |tx.outputs|
        invariant j <= |tx.outputs| && old(usedPKH) <= usedPKH
        invariant forall k :: 0 <= k < j && tx.outputs[k].pkh.Some? ==> tx.outputs[k].pkh.value in usedPKH
      {
        if tx.outputs[j].pkh.Some? { usedPKH := usedPKH + {tx.outputs[j].pkh.value}; }
        j := j + 1;
      }
    }

    /** The maps agree, and the list holds known wallet transactions, once each, sorted by height. */
    ghost predicate Valid()
      reads this`allTx, this`height, this`timestamp, this`transactions, this`allPKH
    {
      GoodMaps(allTx, height, timestamp, rank) && GoodList(allTx, height, allPKH, transactions)
    }

    /** Both chains are derived in order, and allPKH is the index of their entries. */
    ghost predicate KeysValid()
      reads this`internalChain, this`externalChain, this`allPKH
    {
      && DistinctKeys(derive)
      && Derived(derive, true, internalChain) && Derived(derive, false, externalChain)
      && allPKH == Elements(internalChain) + Elements(externalChain)
    }

    /** The gapLimit keys after the last used one of a chain, generating as many as needed.  moved
        says whether growing the chain's array relocated it, in which case allPKH is rebuilt. */
    method UnusedAddrs(gapLimit: nat, internal: bool, moved: bool) returns (addrs: seq<Pkh>)
      requires KeysValid() && gapLimit > 0
      modifies this`internalChain, this`externalChain, this`allPKH
      ensures KeysValid() && old(allPKH) <= allPKH && (old(Valid()) ==> Valid())
      ensures var (chain, was) := if internal then (internalChain, old(internalChain)) else (externalChain, old(externalChain));
              var n := AfterLastUsed(chain, usedPKH);
           && was <= chain
           && (if n + gapLimit <= |chain| then addrs == chain[n..n + gapLimit] && forall x :: x in addrs ==> x !in usedPKH
               else addrs == [] && derive(internal, |chain|).None?)
           && (|chain| > |was| ==> |chain| <= n + gapLimit)
      ensures if internal then externalChain == old(externalChain) else internalChain == old(internalChain)
    {
      hide GoodMaps, GoodList, Derived, DistinctKeys, Elements, AfterLastUsed;
      var orig := if internal then internalChain else externalChain;
      var chain, i := Extend(orig, usedPKH, gapLimit, derive, internal);
      addrs := [];
      if i + gapLimit <= |chain| { addrs := chain[i..i + gapLimit]; }
      StoreChain(orig, chain, internal, moved);
    }

    /** Keep the extended chain and bring the index up to date, or rebuild it if the array moved. */
    method StoreChain(orig: seq<Pkh>, chain: seq<Pkh>, internal: bool, moved: bool)
      requires KeysValid() && orig <= chain && Derived(derive, internal, chain)
      requires orig == if internal then internalChain else externalChain
      modifies this`internalChain, this`externalChain, this`allPKH
      ensures KeysValid() && old(allPKH) <= allPKH && (old(Valid()) ==> Valid())
      ensures internalChain == if internal then chain else old(internalChain)
      ensures externalChain == if internal then old(externalChain) else chain
    {
      KeysGrow(orig, chain);
      var keys := allPKH;
      if internal { internalChain := chain; } else { externalChain := chain; }
      if moved {
        keys := Collect({}, internalChain, 0);
        keys := Collect(keys, externalChain, 0);
        assert internalChain[0..] == internalChain && externalChain[0..] == externalChain;
      } else {
        keys := Collect(keys, chain, |orig|);
      }
      assert keys == Elements(internalChain) + Elements(externalChain);
      if GoodList(allTx, height, allPKH, transactions) { MoreKeysKeepValid(allTx, height, allPKH, keys, transactions); }
      allPKH := keys;
    }

    static method Collect(start: set<Pkh>, chain: seq<Pkh>, from: nat) returns (keys: set<Pkh>)
      requires from <= |chain|
      ensures keys == start + Elements(chain[from..])
    {
      keys := start;
      var i := from;
      while i < |chain|
        invariant from <= i <= |chain| && keys == start + Elements(chain[from..i])
      {
        assert chain[from..i + 1] == chain[from..i] + [chain[i]];
        keys := keys + {chain[i]};
        i := i + 1;
      }
      assert chain[from..i] == chain[from..];
    }

    function ContextAt(now: nat): Context
      reads this`allTx, this`height, this`allPKH, this`blockHeight
    {
      Context(allTx, height, allPKH, blockHeight, now)
    }

    function CurrentTally(): Tally
      reads this`utxos, this`spentOutputs, this`invalidTx, this`pendingTx, this`usedPKH
      reads this`totalSent, this`totalReceived, this`balanceHist
    {
      Tally(utxos, spentOutputs, invalidTx, pendingTx, usedPKH, totalSent, totalReceived, balanceHist)
    }

    /** The cached figures are those of the current list. */
    ghost predicate Tallied(now: nat)
      requires forall id :: id in transactions ==> id in allTx && id in height
      reads this
    {
      CurrentTally() == Run(ContextAt(now), transactions) && balance == Total(allTx, utxos)
    }

    /** _BRWalletContainsTx */
    method ContainsTx(tx: Tx) returns (r: bool)
      ensures r == Concerns(allTx, allPKH, tx)
    {
      r := false;
      var i := 0;
      while !r && i < |tx.outputs|
        invariant i <= |tx.outputs| && (r ==> Concerns(allTx, allPKH, tx))
        invariant !r ==> forall j :: 0 <= j < i ==> tx.outputs[j].pkh.None? || tx.outputs[j].pkh.value !in allPKH
      {
        if tx.outputs[i].pkh.Some? && tx.outputs[i].pkh.value in allPKH { r := true; }
        i := i + 1;
      }
      i := 0;
      while !r && i < |tx.inputs|
        invariant i <= |tx.inputs| && (r ==> Concerns(allTx, allPKH, tx))
        invariant !r ==> forall j :: 0 <= j < |tx.outputs| ==> tx.outputs[j].pkh.None? || tx.outputs[j].pkh.value !in allPKH
        invariant !r ==> forall k :: 0 <= k < i ==> !PaysFrom(allTx, allPKH, tx.inputs[k].prev)
      {
        var o := tx.inputs[i].prev;
        if o.txHash in allTx && o.index < |allTx[o.txHash].outputs| {
          var pkh := allTx[o.txHash].outputs[o.index].pkh;
          if pkh.Some? && pkh.value in allPKH { r := true; }
        }
        i := i + 1;
      }
    }

    // ---- _BRWalletUpdateBalance

    method HasConflict(tx: Tx) returns (r: bool)
      ensures r == Conflicts(spentOutputs, invalidTx, tx)
    {
      r := false;
      var j := 0;
      while !r && j < |tx.inputs|
        invariant j <= |tx.inputs|
        invariant r ==> Conflicts(spentOutputs, invalidTx, tx)
        invariant !r ==> forall k :: 0 <= k < j ==> tx.inputs[k].prev !in spentOutputs && tx.inputs[k].prev.txHash !in invalidTx
      {
        if tx.inputs[j].prev in spentOutputs || tx.inputs[j].prev.txHash in invalidTx { r := true; }
        j := j + 1;
      }
    }

    method CheckPending(tx: Tx, now: nat) returns (r: bool)
      ensures r == IsPending(ContextAt(now), pendingTx, tx)
    {
      r := tx.vsize > TX_MAX_SIZE;
      var j := 0;
      while !r && j < |tx.outputs|
        invariant j <= |tx.outputs|
        invariant r ==> IsPending(ContextAt(now), pendingTx, tx)
        invariant !r ==> tx.vsize <= TX_MAX_SIZE && forall k :: 0 <= k < j ==> tx.outputs[k].amount >= TX_MIN_OUTPUT_AMOUNT
      {
        if tx.outputs[j].amount < TX_MIN_OUTPUT_AMOUNT { r := true; }
        j := j + 1;
      }
      j := 0;
      while !r && j < |tx.inputs|
        invariant j <= |tx.inputs|
        invariant r ==> IsPending(ContextAt(now), pendingTx, tx)
        invariant !r ==> tx.vsize <= TX_MAX_SIZE && forall k :: 0 <= k < |tx.outputs| ==> tx.outputs[k].amount >= TX_MIN_OUTPUT_AMOUNT
        invariant !r ==> forall k :: 0 <= k < j ==> !HoldsBack(tx.inputs[k], tx.lockTime, blockHeight, now, pendingTx)
      {
        var input := tx.inputs[j];
        if input.sequence < UINT32_MAX - 1 { r := true; }
        if input.sequence < UINT32_MAX && tx.lockTime < TX_MAX_LOCK_HEIGHT && tx.lockTime > blockHeight + 1 { r := true; }
        if input.sequence < UINT32_MAX && tx.lockTime > now { r := true; }
        if input.prev.txHash in pendingTx { r := true; }
        j := j + 1;
      }
    }

    method AddSpent(tx: Tx)
      modifies this`spentOutputs
      ensures spentOutputs == old(spentOutputs) + Spends(tx)
    {
      var j := 0;
      while j < |tx.inputs|
        invariant j <= |tx.inputs|
        invariant spentOutputs == old(spentOutputs) + set i | 0 <= i < j :: tx.inputs[i].prev
      {
        spentOutputs := spentOutputs + {tx.inputs[j].prev};
        j := j + 1;
      }
    }

    method AddOutputs(tx: Tx, start: nat) returns (sum: nat)
      requires tx.hash in allTx && allTx[tx.hash] == tx && start == Total(allTx, utxos)
      modifies this`utxos, this`usedPKH
      ensures utxos == old(utxos) + OwnedOutputs(allPKH, tx, |tx.outputs|)
      ensures usedPKH == old(usedPKH) + UsedKeys(allPKH, tx, |tx.outputs|)
      ensures sum == Total(allTx, utxos)
    {
      sum := start;
      var j := 0;
      while j < |tx.outputs|
        invariant j <= |tx.outputs|
        invariant utxos == old(utxos) + OwnedOutputs(allPKH, tx, j)
        invariant usedPKH == old(usedPKH) + UsedKeys(allPKH, tx, j)
        invariant sum == Total(allTx, utxos)
      {
        if tx.outputs[j].hasAddress && tx.outputs[j].pkh.Some? && tx.outputs[j].pkh.value in allPKH {
          usedPKH := usedPKH + {tx.outputs[j].pkh.value};
          TotalAppend(allTx, utxos, OutPoint(tx.hash, j));
          AppendOwned(old(utxos), allPKH, tx, j);
          utxos := utxos + [OutPoint(tx.hash, j)];
          sum := sum + tx.outputs[j].amount;
        }
        j := j + 1;
      }
    }

    method PurgeSpent(start: nat) returns (sum: nat)
      requires start == Total(allTx, utxos)
      requires forall o :: o in utxos ==> o.txHash in allTx && o.index < |allTx[o.txHash].outputs|
      modifies this`utxos
      ensures utxos == Keep(old(utxos), spentOutputs) && sum == Total(allTx, utxos)
    {
      hide Keep, Total;
      sum := start;
      ghost var was := utxos;
      assert Keep(was[|was|..], spentOutputs) == [] by { KeepNone(was, spentOutputs); }
      var j := |utxos|;
      while j > 0
        invariant 0 <= j <= |was| && j <= |utxos| && utxos[..j] == was[..j] && utxos[j..] == Keep(was[j..], spentOutputs)
        invariant sum == Total(allTx, utxos)
      {
        KeepStep(was, spentOutputs, j);
        assert utxos[j - 1] == was[j - 1] by { assert utxos[..j][j - 1] == was[..j][j - 1]; }
        var o := utxos[j - 1];
        assert o in was;
        if o in spentOutputs {
          TotalRemove(allTx, utxos, j - 1);
          sum := sum - allTx[o.txHash].outputs[o.index].amount;
          utxos := utxos[..j - 1] + utxos[j..];
        } else {
          assert utxos[j - 1..] == [o] + utxos[j..];
        }
        j := j - 1;
      }
      assert was[0..] == was && utxos[0..] == utxos;
    }

    method ProcessTx(id: Hash, prevBalance: nat, now: nat, ghost c: Context) returns (sum: nat)
      requires c == ContextAt(now) && id in allTx && id in height && allTx[id].hash == id && prevBalance == Total(allTx, utxos)
      requires forall o :: o in utxos ==> o.txHash in allTx && o.index < |allTx[o.txHash].outputs|
      modifies this`utxos, this`spentOutputs, this`invalidTx, this`pendingTx, this`usedPKH
      modifies this`totalSent, this`totalReceived, this`balanceHist
      ensures CurrentTally() == Step(c, old(CurrentTally()), id) && sum == Total(allTx, utxos)
    {
      hide Conflicts, IsPending, OwnedOutputs, Keep, UsedKeys, Total, Spends;
      var tx := allTx[id];
      sum := prevBalance;
      if height[id] == TX_UNCONFIRMED {
        var isInvalid := HasConflict(tx);
        if isInvalid {
          invalidTx := invalidTx + {id};
          balanceHist := balanceHist + [sum];
          return;
        }
      }
      AddSpent(tx);
      if height[id] == TX_UNCONFIRMED {
        var isPending := CheckPending(tx, now);
        if isPending {
          pendingTx := pendingTx + {id};
          balanceHist := balanceHist + [sum];
          return;
        }
      }
      sum := Accept(tx, sum);
    }

    /** The rest of the loop body, for a transaction that is neither invalid nor pending. */
    method Accept(tx: Tx, prevBalance: nat) returns (sum: nat)
      requires tx.hash in allTx && allTx[tx.hash] == tx && prevBalance == Total(allTx, utxos)
      requires forall o :: o in utxos ==> o.txHash in allTx && o.index < |allTx[o.txHash].outputs|
      modifies this`utxos, this`usedPKH, this`totalSent, this`totalReceived, this`balanceHist
      ensures utxos == Keep(old(utxos) + OwnedOutputs(allPKH, tx, |tx.outputs|), spentOutputs)
      ensures sum == Total(allTx, utxos) && balanceHist == old(balanceHist) + [sum]
      ensures usedPKH == old(usedPKH) + UsedKeys(allPKH, tx, |tx.outputs|)
      ensures totalReceived == old(totalReceived) + if prevBalance < sum then sum - prevBalance else 0
      ensures totalSent == old(totalSent) + if sum < prevBalance then prevBalance - sum else 0
    {
      OwnedOutputsIs(allPKH, tx, |tx.outputs|);
      sum := AddOutputs(tx, prevBalance);
      sum := PurgeSpent(sum);
      if prevBalance < sum { totalReceived := totalReceived + (sum - prevBalance); }
      if sum < prevBalance { totalSent := totalSent + (prevBalance - sum); }
      balanceHist := balanceHist + [sum];
    }

    method Reset()
      modifies this`utxos, this`spentOutputs, this`invalidTx, this`pendingTx, this`usedPKH
      modifies this`totalSent, this`totalReceived, this`balanceHist
      ensures CurrentTally() == NOTHING
    {
      utxos, balanceHist, spentOutputs, invalidTx, pendingTx, usedPKH := [], [], {}, {}, {}, {};
      totalSent, totalReceived := 0, 0;
    }

    method UpdateBalance(now: nat)
      requires WellFormed(ContextAt(now), transactions)
      modifies this`utxos, this`spentOutputs, this`invalidTx, this`pendingTx, this`usedPKH
      modifies this`totalSent, this`totalReceived, this`balanceHist, this`balance
      ensures Tallied(now)
    {
      hide Step, NoDuplicates, Run, Total;
      Reset();
      var i, sum := 0, 0;
      ghost var c := ContextAt(now);
      EmptyRun(c, transactions);
      while i < |transactions|
        invariant i <= |transactions| && c == ContextAt(now)
        invariant CurrentTally() == Run(c, transactions[..i]) && sum == Total(c.allTx, utxos)
      {
        PrefixStep(c, transactions, i);
        sum := ProcessTx(transactions[i], sum, now, c);
        i := i + 1;
      }
      assert transactions[..i] == transactions;
      balance := sum;
    }

    // ---- The sorted list

    /** _BRWalletInsertTx: insertion sort from the end. */
    method InsertTx(id: Hash)
      requires Acyclic(allTx, rank) && allTx.Keys <= height.Keys && id in allTx && forall x :: x in transactions ==> x in allTx
      modifies this`transactions
      ensures transactions == Inserted(allTx, height, rank, internalChain, externalChain, old(transactions), id)
      ensures BehindParents(allTx, height, transactions, id)
    {
      hide Compare, Inserted, Acyclic, BehindParents;
      InsertedBehindParents(allTx, height, rank, internalChain, externalChain, transactions, id);
      ghost var was := transactions;
      var i, list: seq<Hash> := |transactions|, transactions + [id];
      while i > 0 && Compare(allTx, height, rank, internalChain, externalChain, list[i - 1], id) > 0
        invariant 0 <= i <= |was| && |list| == |was| + 1
        invariant forall k :: 0 <= k < i ==> list[k] == was[k]
        invariant forall k :: i < k <= |was| ==> list[k] == was[k - 1]
        invariant forall k :: i <= k < |was| ==> Compare(allTx, height, rank, internalChain, externalChain, was[k], id) > 0
      {
        list := list[i := list[i - 1]];
        i := i - 1;
      }
      InsertedAt(allTx, height, rank, internalChain, externalChain, was, id, i);
      transactions := list[i := id];
      Spliced(was, transactions, i, id);
    }

    /** Position of id in the list, searched from the end as the code does. */
    method Find(id: Hash) returns (i: nat)
      ensures i <= |transactions|
      ensures i > 0 ==> transactions[i - 1] == id
      ensures i == 0 ==> id !in transactions
    {
      i := |transactions|;
      while i > 0 && transactions[i - 1] != id
        invariant i <= |transactions| && forall k :: i <= k < |transactions| ==> transactions[k] != id
      {
        i := i - 1;
      }
    }

    /** Transactions that were unconfirmed before the given height. */
    method TxUnconfirmedBefore(h: nat) returns (r: seq<Hash>)
      requires Valid()
      ensures |r| <= |transactions| && r == transactions[|transactions| - |r|..]
      ensures forall id :: id in r <==> id in transactions && height[id] >= h
    {
      hide GoodMaps, Concerns;
      var total, n := |transactions|, 0;
      while n < total && height[transactions[total - n - 1]] >= h
        invariant n <= total && forall k :: total - n <= k < total ==> height[transactions[k]] >= h
      {
        n := n + 1;
      }
      r := transactions[total - n..];
      forall id | id in transactions && height[id] >= h ensures id in r {
        var k :| 0 <= k < total && transactions[k] == id;
        assert k >= total - n;
        assert r[k - (total - n)] == id;
      }
    }

    /** Un-confirm everything confirmed after the given height, and report what was. */
    method SetTxUnconfirmedAfter(h: nat, now: nat) returns (updated: seq<Hash>)
      requires Valid() && h <= TX_UNCONFIRMED
      modifies this`height, this`blockHeight
      modifies this`utxos, this`spentOutputs, this`invalidTx, this`pendingTx, this`usedPKH
      modifies this`totalSent, this`totalReceived, this`balanceHist, this`balance
      ensures Valid() && blockHeight == h
      ensures height == HeightsAfter(old(height), transactions, h)
      ensures forall id :: id in updated <==> id in transactions && old(height)[id] > h
      ensures updated != [] ==> Tallied(now)
      ensures updated == [] ==> CurrentTally() == old(CurrentTally()) && balance == old(balance)
      ensures old(Orderly()) ==> Orderly()
    {
      hide Tallied, HeightsAfter, NotLower, GoodMaps, GoodList, WellFormed;
      blockHeight := h;
      updated := Unconfirm(h);
      ListIsWellFormed(now);
      if updated != [] { UpdateBalance(now); }
    }

    method Unconfirm(h: nat) returns (updated: seq<Hash>)
      requires Valid()
      modifies this`height
      ensures Valid() && height == HeightsAfter(old(height), transactions, h)
      ensures forall id :: id in updated <==> id in transactions && old(height)[id] > h
      ensures old(Orderly()) ==> Orderly()
    {
      hide NotLower, HeightsAfter, Concerns, Acyclic, NoDuplicates;
      if NotLower(allTx, height, transactions) { UnconfirmKeepsOrder(Records(), transactions, h); }
      var i := ScanFromEnd(h);
      UnconfirmKeepsValid(allTx, height, timestamp, rank, allPKH, transactions, h);
      updated := transactions[i..];
      MarkUnconfirmed(i, h);
    }

    /** Start of the suffix of transactions above h. */
    method ScanFromEnd(h: nat) returns (i: nat)
      requires (forall id :: id in transactions ==> id in height) && SortedByHeight(height, transactions)
      ensures i <= |transactions| && forall id :: id in transactions[i..] <==> id in transactions && height[id] > h
    {
      i := |transactions|;
      while i > 0 && height[transactions[i - 1]] > h
        invariant 0 <= i <= |transactions| && forall k :: i <= k < |transactions| ==> height[transactions[k]] > h
      {
        i := i - 1;
      }
      Suffix(height, transactions, i, h);
    }

    method MarkUnconfirmed(i: nat, ghost h: nat)
      requires i <= |transactions| && forall id :: id in transactions ==> id in height
      requires forall id :: id in transactions[i..] <==> id in transactions && height[id] > h
      modifies this`height
      ensures height == HeightsAfter(old(height), transactions, h)
    {
      ghost var was := height;
      var j := i;
      while j < |transactions|
        invariant i <= j <= |transactions|
        invariant height == map id | id in was :: if id in transactions[i..j] then TX_UNCONFIRMED else was[id]
      {
        assert transactions[i..j + 1] == transactions[i..j] + [transactions[j]];
        height := height[transactions[j] := TX_UNCONFIRMED];
        j := j + 1;
      }
      assert transactions[i..j] == transactions[i..];
    }

    // ---- Transactions come in

    /** Register a transaction, and replace wallet addresses that it uses by new ones.  The new keys
        come after the balance was computed. */
    method RegisterTransaction(tx: Tx, h: nat, time: nat, signed: bool, now: nat, moved: bool) returns (r: bool)
      requires Valid() && KeysValid() && h <= TX_UNCONFIRMED
      requires forall k :: 0 <= k < |tx.inputs| ==> rank(tx.inputs[k].prev.txHash) < rank(tx.hash)
      modifies this`allTx, this`height, this`timestamp, this`transactions
      modifies this`internalChain, this`externalChain, this`allPKH
      modifies this`utxos, this`spentOutputs, this`invalidTx, this`pendingTx, this`usedPKH
      modifies this`totalSent, this`totalReceived, this`balanceHist, this`balance
      ensures Valid() && KeysValid() && old(allPKH) <= allPKH
      ensures var isNew := signed && tx.hash !in old(allTx) && Concerns(old(allTx), old(allPKH), tx);
              var known := ContextAt(now).(owned := old(allPKH));
           && r == (isNew || (signed && tx.hash in old(allTx)))
           && Records() == (if isNew || Remembered(old(allTx), tx, h, signed) then Added(old(Records()), tx, h, time) else old(Records()))
           && (forall id :: id in transactions <==> id in old(transactions) || (isNew && id == tx.hash))
           && (isNew ==> HasGap(externalChain, SEQUENCE_GAP_LIMIT_EXTERNAL, false) && HasGap(internalChain, SEQUENCE_GAP_LIMIT_INTERNAL, true))
           && (isNew ==> CurrentTally() == Run(known, transactions) && balance == Total(allTx, utxos))
           && (isNew && h == TX_UNCONFIRMED ==> Inherits(tx, old(transactions), invalidTx, pendingTx))
           && (isNew ==> (Tallied(now) <==> !AcceptedPays(known, transactions, allPKH - old(allPKH))))
           && (!isNew ==> CurrentTally() == old(CurrentTally()) && balance == old(balance) && allPKH == old(allPKH))
           && (Orderly() <==> old(Orderly()) && (isNew || Remembered(old(allTx), tx, h, signed) ==>
                                                  InOrder(old(Records()), old(transactions), tx, h, isNew)))
    {
      hide GoodMaps, GoodList, WellFormed, Concerns, InOrder, NotLower, AcceptedPays, SpendsFrom, Run, Total;
      hide BehindParents, Inherits;
      ListIsWellFormed(now);
      ghost var isNew := signed && tx.hash !in allTx && Concerns(allTx, allPKH, tx);
      var wasKnown := tx.hash in allTx;
      ghost var isAdded := isNew || Remembered(allTx, tx, h, signed);
      r := RegisterLocked(tx, h, time, signed, now);
      ListIsWellFormed(now);
      if isAdded {
        NotOwnInput(tx, rank);
        OrderAfterAdding(old(Records()), old(transactions), transactions, tx, h, time, isNew);
      }
      if r && !wasKnown {
        ghost var known := ContextAt(now);
        if h == TX_UNCONFIRMED { BehindInherits(known, transactions, old(transactions), tx); }
        RefillGaps(moved);
        TallyWithMoreKeys(known, allPKH, transactions);
        assert known.(owned := allPKH) == ContextAt(now);
      }
    }

    /** Both calls of BRWalletUnusedAddrs. */
    method RefillGaps(moved: bool)
      requires KeysValid()
      modifies this`internalChain, this`externalChain, this`allPKH
      ensures KeysValid() && old(allPKH) <= allPKH && (old(Valid()) ==> Valid())
      ensures HasGap(externalChain, SEQUENCE_GAP_LIMIT_EXTERNAL, false) && HasGap(internalChain, SEQUENCE_GAP_LIMIT_INTERNAL, true)
      ensures NoMore(old(externalChain), externalChain, SEQUENCE_GAP_LIMIT_EXTERNAL, usedPKH)
      ensures NoMore(old(internalChain), internalChain, SEQUENCE_GAP_LIMIT_INTERNAL, usedPKH)
    {
      var addrs := UnusedAddrs(SEQUENCE_GAP_LIMIT_EXTERNAL, false, moved);
      addrs := UnusedAddrs(SEQUENCE_GAP_LIMIT_INTERNAL, true, moved);
    }

    /** Enough unused keys follow the last used one, unless the derivation has come to an end. */
    ghost predicate HasGap(chain: seq<Pkh>, gapLimit: nat, internal: bool)
      reads this`usedPKH
    {
      AfterLastUsed(chain, usedPKH) + gapLimit <= |chain| || derive(internal, |chain|).None?
    }

    /** The locked part.  Ancestry without cycles means that tx ranks above its inputs. */
    method RegisterLocked(tx: Tx, h: nat, time: nat, signed: bool, now: nat) returns (r: bool)
      requires Valid() && h <= TX_UNCONFIRMED
      requires forall k :: 0 <= k < |tx.inputs| ==> rank(tx.inputs[k].prev.txHash) < rank(tx.hash)
      modifies this`allTx, this`height, this`timestamp, this`transactions
      modifies this`utxos, this`spentOutputs, this`invalidTx, this`pendingTx, this`usedPKH
      modifies this`totalSent, this`totalReceived, this`balanceHist, this`balance
      ensures Valid()
      ensures var isNew := signed && tx.hash !in old(allTx) && Concerns(old(allTx), allPKH, tx);
           && r == (isNew || (signed && tx.hash in old(allTx)))
           && Records() == (if isNew || Remembered(old(allTx), tx, h, signed) then Added(old(Records()), tx, h, time) else old(Records()))
           && (forall id :: id in transactions <==> id in old(transactions) || (isNew && id == tx.hash))
           && (isNew ==> Tallied(now) && BehindParents(allTx, height, transactions, tx.hash))
           && (!isNew ==> transactions == old(transactions) && CurrentTally() == old(CurrentTally()) && balance == old(balance))
    {
      hide Tallied, Concerns, GoodMaps, GoodList, WellFormed, BehindParents;
      ListIsWellFormed(now);
      r := signed;
      if signed && tx.hash !in allTx {
        var ours := ContainsTx(tx);
        if ours {
          ConcernsWith(allTx, allPKH, tx, tx);
          Learn(tx, h, time);
          Enlist(tx.hash);
          ListIsWellFormed(now);
          UpdateBalance(now);
        } else {
          if h == TX_UNCONFIRMED { Learn(tx, h, time); }
          r := false;
        }
      }
    }

    method Learn(tx: Tx, h: nat, time: nat)
      requires Valid() && tx.hash !in allTx && h <= TX_UNCONFIRMED
      requires forall k :: 0 <= k < |tx.inputs| ==> rank(tx.inputs[k].prev.txHash) < rank(tx.hash)
      modifies this`allTx, this`height, this`timestamp
      ensures Valid()
      ensures allTx == old(allTx)[tx.hash := tx] && height == old(height)[tx.hash := h] && timestamp == old(timestamp)[tx.hash := time]
    {
      AddKeepsValid(allTx, height, timestamp, rank, allPKH, transactions, tx, h, time);
      allTx, height, timestamp := allTx[tx.hash := tx], height[tx.hash := h], timestamp[tx.hash := time];
    }

    method Enlist(id: Hash)
      requires Valid() && id in allTx && id !in transactions && Concerns(allTx, allPKH, allTx[id])
      modifies this`transactions
      ensures Valid()
      ensures forall x :: x in transactions <==> x in old(transactions) || x == id
      ensures BehindParents(allTx, height, transactions, id)
    {
      InsertKeepsValid(allTx, height, timestamp, rank, allPKH, internalChain, externalChain, transactions, id);
      InsertedElements(allTx, height, rank, internalChain, externalChain, transactions, id);
      InsertTx(id);
    }

    // ---- Transactions get a height

    /** What BRWalletUpdateTransactions does with a wallet transaction. */
    method UpdateOurs(id: Hash, h: nat, time: nat)
      requires Valid() && h <= TX_UNCONFIRMED && id in allTx && Concerns(allTx, allPKH, allTx[id])
      modifies this`height, this`timestamp, this`transactions
      ensures Valid()
      ensures forall x :: x in transactions <==> x in old(transactions)
      ensures height == old(height)[id := h] && timestamp == old(timestamp)[id := time]
    {
      TakeOutKeepsValid(allTx, height, timestamp, rank, allPKH, transactions, id, h, time);
      height, timestamp := height[id := h], timestamp[id := time];
      Reinsert(id);
    }

    /** Remove id from the list, if it is there, and insert it again by its new height. */
    method Reinsert(id: Hash)
      requires GoodMaps(allTx, height, timestamp, rank) && NoDuplicates(transactions)
      requires GoodList(allTx, height, allPKH, Without(transactions, {id}))
      requires id in allTx && Concerns(allTx, allPKH, allTx[id])
      modifies this`transactions
      ensures Valid() && forall x :: x in transactions <==> x in old(transactions)
    {
      hide GoodMaps, GoodList, Without, Concerns;
      WithoutIs(transactions, {id});
      var k := Find(id);
      if k > 0 {
        WithoutOne(transactions, k - 1);
        transactions := transactions[..k - 1] + transactions[k..];
        Enlist(id);
      } else {
        WithoutNothing(transactions, {id});
      }
    }

    /** What it does with any other known transaction: drop it once it is confirmed. */
    method UpdateForeign(id: Hash, h: nat, time: nat)
      requires Valid() && h <= TX_UNCONFIRMED && id in allTx && !Concerns(allTx, allPKH, allTx[id])
      modifies this`allTx, this`height, this`timestamp
      ensures Valid()
      ensures h == TX_UNCONFIRMED ==>
        allTx == old(allTx) && height == old(height)[id := h] && timestamp == old(timestamp)[id := time]
      ensures h != TX_UNCONFIRMED ==>
        allTx == old(allTx) - {id} && height == old(height) - {id} && timestamp == old(timestamp) - {id}
    {
      hide GoodMaps, Without, SortedByHeight;
      TakeOutKeepsValid(allTx, height, timestamp, rank, allPKH, transactions, id, h, time);
      WithoutNothing(transactions, {id});
      height, timestamp := height[id := h], timestamp[id := time];
      if h != TX_UNCONFIRMED {
        ForgetKeepsValid(allTx, height, timestamp, rank, allPKH, transactions, id);
        allTx, height, timestamp := allTx - {id}, height - {id}, timestamp - {id};
      }
    }

    ghost function Records(): Book
      reads this`allTx, this`height, this`timestamp
    {
      Book(allTx, height, timestamp)
    }

    method UpdateOne(id: Hash, h: nat, time: nat) returns (isOurs: bool)
      requires Valid() && h <= TX_UNCONFIRMED
      modifies this`allTx, this`height, this`timestamp, this`transactions
      ensures Valid()
      ensures forall x :: x in transactions <==> x in old(transactions)
      ensures isOurs <==> Updates(old(Records()), allPKH, h, time, id)
      ensures Swept(old(Records()), allPKH, h, time, [id], Records()) && SameConcerns(old(Records()), allPKH, Records())
    {
      isOurs := false;
      if id in allTx && !(height[id] == h && timestamp[id] == time) {
        var ours := ContainsTx(allTx[id]);
        if ours {
          UpdateOurs(id, h, time);
          isOurs := true;
        } else {
          forall x | x in allTx { ConcernsWithout(allTx, allPKH, id, allTx[x]); }
          UpdateForeign(id, h, time);
        }
      }
    }

    /** Set the height and timestamp of the given transactions; returns the wallet's among them that
        change.  Transactions that are not the wallet's are dropped once confirmed.  The balance is
        recomputed exactly if one that changes was pending or invalid. */
    method UpdateTransactions(txHashes: seq<Hash>, h: nat, time: nat, now: nat) returns (hashes: seq<Hash>)
      requires Valid() && h <= TX_UNCONFIRMED
      modifies this`allTx, this`height, this`timestamp, this`transactions, this`blockHeight
      modifies this`utxos, this`spentOutputs, this`invalidTx, this`pendingTx, this`usedPKH
      modifies this`totalSent, this`totalReceived, this`balanceHist, this`balance
      ensures Valid()
      ensures blockHeight == if h > old(blockHeight) then h else old(blockHeight)
      ensures forall id :: id in transactions <==> id in old(transactions)
      ensures Updated(old(Records()), allPKH, h, time, txHashes, hashes)
      ensures Swept(old(Records()), allPKH, h, time, txHashes, Records())
      ensures NewHeights(old(height), height, transactions, txHashes, h)
      ensures if Stale(hashes, old(pendingTx), old(invalidTx)) then Tallied(now) else CurrentTally() == old(CurrentTally()) && balance == old(balance)
      ensures old(Orderly()) ==> (Orderly() <==> SweptInOrder(old(Records()), allPKH, old(transactions), h, time, txHashes))
    {
      hide Tallied, GoodMaps, GoodList, WellFormed, Swept, Updated, Stale, NotLower, NewHeights, SweptInOrder;
      if h > blockHeight { blockHeight := h; }
      var needsUpdate;
      hashes, needsUpdate := UpdateHeights(txHashes, h, time);
      ListIsWellFormed(now);
      if needsUpdate { UpdateBalance(now); }
    }

    /** The loop, and what it does to the order of the list. */
    method UpdateHeights(txHashes: seq<Hash>, h: nat, time: nat) returns (hashes: seq<Hash>, needsUpdate: bool)
      requires Valid() && h <= TX_UNCONFIRMED
      modifies this`allTx, this`height, this`timestamp, this`transactions
      ensures Valid()
      ensures forall id :: id in transactions <==> id in old(transactions)
      ensures Updated(old(Records()), allPKH, h, time, txHashes, hashes)
      ensures Swept(old(Records()), allPKH, h, time, txHashes, Records())
      ensures NewHeights(old(height), height, transactions, txHashes, h)
      ensures needsUpdate <==> Stale(hashes, pendingTx, invalidTx)
      ensures old(Orderly()) ==> (Orderly() <==> SweptInOrder(old(Records()), allPKH, old(transactions), h, time, txHashes))
    {
      hide Concerns, SortedByHeight, Acyclic, Drops, Swept, Updates, Updated, Stale, NotLower, NewHeights, SweptInOrder;
      hashes, needsUpdate := UpdateAll(txHashes, h, time);
      ListedHeights(old(Records()), Records(), allPKH, transactions, h, time, txHashes);
      if NotLower(old(allTx), old(height), old(transactions)) {
        OrderAfterSweep(old(Records()), Records(), allPKH, old(transactions), transactions, h, time, txHashes);
      }
    }

    lemma ListIsWellFormed(now: nat)
      requires Valid()
      ensures WellFormed(ContextAt(now), transactions) && allTx.Keys == height.Keys
      ensures forall id :: id in transactions ==> id in allTx && id in height && height[id] <= TX_UNCONFIRMED
    {}

    method UpdateAll(txHashes: seq<Hash>, h: nat, time: nat) returns (hashes: seq<Hash>, needsUpdate: bool)
      requires Valid() && h <= TX_UNCONFIRMED
      modifies this`allTx, this`height, this`timestamp, this`transactions
      ensures Valid()
      ensures forall id :: id in transactions <==> id in old(transactions)
      ensures Updated(old(Records()), allPKH, h, time, txHashes, hashes)
      ensures Swept(old(Records()), allPKH, h, time, txHashes, Records())
      ensures needsUpdate <==> Stale(hashes, pendingTx, invalidTx)
    {
      ghost var was, done := Records(), [];
      assert Swept(was, allPKH, h, time, done, was) && SameConcerns(was, allPKH, was);
      hashes := [];
      needsUpdate := false;
      assert Updated(was, allPKH, h, time, done, hashes) && !Stale(hashes, pendingTx, invalidTx);
      hide Concerns, GoodMaps, GoodList, Swept, Updates, SameConcerns, Records, NoDuplicates, Updated, Stale;
      var i := 0;
      while i < |txHashes|
        invariant i <= |txHashes| && Valid() && done == txHashes[..i]
        invariant forall id :: id in transactions <==> id in old(transactions)
        invariant Updated(was, allPKH, h, time, done, hashes)
        invariant Swept(was, allPKH, h, time, done, Records()) && SameConcerns(was, allPKH, Records())
        invariant needsUpdate <==> Stale(hashes, pendingTx, invalidTx)
      {
        var id := txHashes[i];
        ghost var mid := Records();
        LeftToUpdate(was, allPKH, h, time, done, mid, id);
        var isOurs := UpdateOne(id, h, time);
        SweepOne(was, mid, Records(), allPKH, h, time, done, id);
        UpdatedOne(was, allPKH, h, time, done, hashes, id);
        if isOurs {
          StaleOne(hashes, pendingTx, invalidTx, id);
          hashes := hashes + [id];
          if id in pendingTx || id in invalidTx { needsUpdate := true; }
        }
        i, done := i + 1, done + [id];
      }
      assert done == txHashes;
    }

    // ---- Transactions go

    /** Valid, and no transaction is listed below the height of what it spends from. */
    ghost predicate Orderly()
      reads this`allTx, this`height, this`timestamp, this`transactions, this`allPKH
    {
      Valid() && NotLower(allTx, height, transactions)
    }

    method DoesSpend(tx: Tx, id: Hash) returns (r: bool)
      ensures r == SpendsFrom(tx, id)
    {
      r := false;
      var j := 0;
      while !r && j < |tx.inputs|
        invariant j <= |tx.inputs| && (r ==> SpendsFrom(tx, id))
        invariant !r ==> forall k :: 0 <= k < j ==> tx.inputs[k].prev.txHash != id
      {
        r := tx.inputs[j].prev.txHash == id;
        j := j + 1;
      }
    }

    /** Scan from the end, down to the height of id, for transactions that spend from it. */
    method FindSpenders(id: Hash) returns (hashes: seq<Hash>)
      requires Orderly() && id in allTx
      ensures forall s :: s in hashes <==> DirectSpender(allTx, Elements(transactions), s, id)
    {
      hashes := [];
      var i := |transactions|;
      while i > 0 && height[transactions[i - 1]] >= height[id]
        invariant 0 <= i <= |transactions|
        invariant forall s :: s in hashes <==> s in transactions[i..] && SpendsFrom(allTx[s], id)
      {
        var t := transactions[i - 1];
        assert transactions[i - 1..] == [t] + transactions[i..];
        if t != id {
          var spends := DoesSpend(allTx[t], id);
          if spends { hashes := hashes + [t]; }
        } else {
          NotOwnSpender(allTx, rank, id);
        }
        i := i - 1;
      }
      SpendersInSuffix(allTx, height, transactions, id, i);
    }

    /** Take one transaction out of the list. */
    method TakeOut(id: Hash)
      requires Orderly()
      modifies this`transactions
      ensures Orderly() && transactions == Without(old(transactions), {id})
    {
      RemovalKeepsValid(allTx, height, allPKH, transactions, {id});
      var k := Find(id);
      if k > 0 {
        WithoutOne(transactions, k - 1);
        transactions := transactions[..k - 1] + transactions[k..];
      } else {
        WithoutNothing(transactions, {id});
      }
    }

    /** Remove a transaction and everything listed that depends on it. */
    method RemoveTransaction(id: Hash, now: nat)
      requires Orderly()
      modifies this`transactions
      modifies this`utxos, this`spentOutputs, this`invalidTx, this`pendingTx, this`usedPKH
      modifies this`totalSent, this`totalReceived, this`balanceHist, this`balance
      ensures Orderly()
      ensures id !in allTx ==> transactions == old(transactions)
      ensures id in allTx ==> Tallied(now)
      ensures id in allTx ==> transactions == AfterRemoval(allTx, rank, old(transactions), id)
      decreases |Dependents(allTx, rank, Elements(transactions), id)|
    {
      hide Dependents, GoodList, Tallied, WellFormed, Acyclic, Without, Elements, DirectSpender;
      if id in allTx {
        var hashes := FindSpenders(id);
        if hashes != [] {
          ghost var was := transactions;
          ghost var gone := RemoveSpenders(hashes, id, now);
          RemovalDone(allTx, rank, was, id, gone, hashes);
          RemoveTransaction(id, now);
        } else {
          NoSpendersNoDependents(allTx, rank, Elements(transactions), id);
          TakeOut(id);
          ListIsWellFormed(now);
          UpdateBalance(now);
        }
      }
    }

    /** The loop of recursive calls: remove each direct spender of id, last found first. */
    method RemoveSpenders(hashes: seq<Hash>, id: Hash, now: nat) returns (ghost gone: set<Hash>)
      requires Orderly() && id in allTx
      requires forall s :: s in hashes <==> DirectSpender(allTx, Elements(transactions), s, id)
      modifies this`transactions
      modifies this`utxos, this`spentOutputs, this`invalidTx, this`pendingTx, this`usedPKH
      modifies this`totalSent, this`totalReceived, this`balanceHist, this`balance
      ensures Orderly()
      ensures RemovedSoFar(allTx, rank, old(transactions), id, gone, transactions)
      ensures Covers(hashes, 0, gone)
      decreases |Dependents(allTx, rank, Elements(transactions), id)|, 0
    {
      ghost var was := transactions;
      gone := {};
      WithoutNothing(was, {});
      var i := |hashes|;
      while i > 0
        invariant 0 <= i <= |hashes| && Orderly()
        invariant RemovedSoFar(allTx, rank, was, id, gone, transactions)
        invariant Covers(hashes, i, gone)
      {
        i := i - 1;
        assert DirectSpender(allTx, Elements(was), hashes[i], id);
        gone := SpenderRemoved(allTx, rank, was, id, gone, transactions, hashes, i);
        RemoveTransaction(hashes[i], now);
      }
    }
  }

  // ---- An output that is missed

  /** Even keys for receiving, odd ones for change. */
  function ExampleKey(internal: bool, n: nat): Option<Pkh> {
    Some(2 * n + if internal then 1 else 0)
  }

  /** A payment to the last of the ten receiving keys and to the one after it. */
  const LATE_PAYMENT := Tx(1, [Input(OutPoint(0, 0), UINT32_MAX)], [Output(60_000, Some(18), true), Output(40_000, Some(20), true)], 0, 226)

  lemma ExampleKnown(internal: seq<Pkh>, external: seq<Pkh>)
    requires Derived(ExampleKey, true, internal) && Derived(ExampleKey, false, external) && |external| == 10
    ensures var keys := Elements(internal) + Elements(external); 18 in keys && 20 !in keys
  {
    assert ExampleKey(false, 9) == Some(external[9]);
    forall k | 0 <= k < |internal| ensures internal[k] != 20 { assert ExampleKey(true, k) == Some(internal[k]); }
    forall k | 0 <= k < |external| ensures external[k] != 20 { assert ExampleKey(false, k) == Some(external[k]); }
  }

  lemma ExampleRefilled(external: seq<Pkh>, used: set<Pkh>)
    requires Derived(ExampleKey, false, external) && 18 in used && AfterLastUsed(external, used) + 10 <= |external|
    ensures 20 in Elements(external)
  {
    assert ExampleKey(false, 9) == Some(external[9]);
    assert AfterLastUsed(external, used) > 9;
    assert ExampleKey(false, 10) == Some(external[10]);
  }

  lemma ExampleTally(c: Context, ids: seq<Hash>)
    requires ids == [1] && c.allTx == map[1 := LATE_PAYMENT] && c.height == map[1 := 5] && 18 in c.owned && 20 !in c.owned
    ensures WellFormed(c, ids) && 18 in Run(c, ids).used && Accepted(Run(c, ids), 1)
    ensures OutPoint(1, 0) in Run(c, ids).utxos && OutPoint(1, 1) !in Run(c, ids).utxos
  {
    FirstConfirmed(c, ids, 1);
    hide Run, Keep, OwnedOutputs, UsedKeys;
    UsedKeysIs(c.owned, LATE_PAYMENT, 2);
    OwnedOutputsIs(c.owned, LATE_PAYMENT, 2);
    assert IsOwned(c.owned, LATE_PAYMENT.outputs[0]) && !IsOwned(c.owned, LATE_PAYMENT.outputs[1]);
    KeepIs(OwnedOutputs(c.owned, LATE_PAYMENT, 2), Spends(LATE_PAYMENT));
  }

  lemma NoTwo(list: seq<Hash>, x: Hash)
    requires |list| > 1 && forall i :: 0 <= i < |list| ==> list[i] == x
    ensures !NoDuplicates(list)
  {
    assert list[0] == list[1];
  }

  lemma OnlyOne(list: seq<Hash>)
    requires NoDuplicates(list) && forall id :: id in list <==> id == 1
    ensures list == [1]
  {
    assert 1 in list;
    assert forall i :: 0 <= i < |list| ==> list[i] in list;
    hide NoDuplicates;
    if |list| > 1 { NoTwo(list, 1); }
  }

  /** A fresh wallet registers that payment: the second output goes to a key that is generated only after
      the balance was computed, and is missed. */
  method LateKeyExample(now: nat) returns (w: Wallet)
    ensures fresh(w) && w.Valid() && w.transactions == [1] && w.allTx == map[1 := LATE_PAYMENT] && w.height == map[1 := 5]
    ensures IsOwned(w.allPKH, LATE_PAYMENT.outputs[1]) && OutPoint(1, 1) !in w.utxos && OutPoint(1, 0) in w.utxos
    ensures !w.Tallied(now)
  {
    hide GoodMaps, Listed, AfterLastUsed, Run, AcceptedPays, Acyclic, SortedByHeight, NoDuplicates, DistinctKeys;
    w := ExampleWallet(now);
    ghost var known := w.allPKH;
    assert Concerns(w.allTx, known, LATE_PAYMENT) by { assert LATE_PAYMENT.outputs[0].pkh.value in known; }
    hide Concerns;
    var r := w.RegisterTransaction(LATE_PAYMENT, 5, 0, true, now, false);
    ghost var c := w.ContextAt(now).(owned := known);
    OnlyOne(w.transactions);
    ExampleTally(c, w.transactions);
    ExampleRefilled(w.externalChain, w.usedPKH);
    assert PaysAny(LATE_PAYMENT, w.allPKH - known) by { assert IsOwned(w.allPKH - known, LATE_PAYMENT.outputs[1]); }
    LateIsPaid(c, w.transactions, w.allPKH - known);
  }

  lemma LateIsPaid(c: Context, ids: seq<Hash>, keys: set<Pkh>)
    requires WellFormed(c, ids) && 1 in ids && Accepted(Run(c, ids), 1) && PaysAny(c.allTx[1], keys)
    ensures AcceptedPays(c, ids, keys)
  {}

  lemma FirstListed(b: Book, rank: Hash -> nat, list: seq<Hash>)
    requires Listed(b, rank, list) && list != []
    ensures list[0] in b.allTx
  {
    ListedIs(b, rank, list, {}, 0, 0);
  }

  method ExampleWallet(now: nat) returns (w: Wallet)
    ensures fresh(w) && w.Valid() && w.KeysValid() && w.derive == ExampleKey && w.allTx == map[] && w.height == map[] && w.transactions == []
    ensures 18 in w.allPKH && 20 !in w.allPKH && forall h: Hash :: w.rank(h) == h
  {
    hide Listed, GoodMaps, GoodList, Concerns, Wallet.Tallied, Derived;
    var derive: Derivation := ExampleKey;
    w := new Wallet([], derive, (h: Hash) => h, now);
    if w.transactions != [] { FirstListed(w.Records(), w.rank, w.transactions); }
    NoneUsed(w.externalChain, {});
    ExampleKnown(w.internalChain, w.externalChain);
  }

  ghost function AfterRemoval(allTx: map<Hash, Tx>, rank: Hash -> nat, list: seq<Hash>, id: Hash): seq<Hash>
    requires Acyclic(allTx, rank)
  {
    Without(list, {id} + Dependents(allTx, rank, Elements(list), id))
  }

  ghost predicate RemovedSoFar(allTx: map<Hash, Tx>, rank: Hash -> nat, was: seq<Hash>, id: Hash, gone: set<Hash>, list: seq<Hash>)
    requires Acyclic(allTx, rank)
  {
    Progress(allTx, rank, Elements(was), id, gone) && list == Without(was, gone)
  }

  ghost predicate Covers(hashes: seq<Hash>, i: nat, gone: set<Hash>) {
    forall k :: i <= k < |hashes| ==> hashes[k] in gone
  }

  lemma SpenderRemoved(allTx: map<Hash, Tx>, rank: Hash -> nat, was: seq<Hash>, id: Hash, gone: set<Hash>, list: seq<Hash>,
                       hashes: seq<Hash>, i: nat)
    returns (gone': set<Hash>)
    requires Acyclic(allTx, rank) && RemovedSoFar(allTx, rank, was, id, gone, list) && Covers(hashes, i + 1, gone)
    requires i < |hashes| && DirectSpender(allTx, Elements(was), hashes[i], id)
    ensures RemovedSoFar(allTx, rank, was, id, gone', AfterRemoval(allTx, rank, list, hashes[i])) && Covers(hashes, i, gone')
    ensures |Dependents(allTx, rank, Elements(list), hashes[i])| < |Dependents(allTx, rank, Elements(was), id)|
  {
    var s := hashes[i];
    var more := {s} + Dependents(allTx, rank, Elements(was) - gone, s);
    WithoutElements(was, gone);
    ProgressStep(allTx, rank, Elements(was), id, gone, s);
    WithoutTwice(was, gone, more);
    gone' := gone + more;
    assert gone' == gone + {s} + Dependents(allTx, rank, Elements(was) - gone, s);
  }

  lemma RemovalDone(allTx: map<Hash, Tx>, rank: Hash -> nat, was: seq<Hash>, id: Hash, gone: set<Hash>, hashes: seq<Hash>)
    requires Acyclic(allTx, rank) && Progress(allTx, rank, Elements(was), id, gone)
    requires hashes != [] && Covers(hashes, 0, gone) && forall s :: s in hashes <==> DirectSpender(allTx, Elements(was), s, id)
    ensures AfterRemoval(allTx, rank, Without(was, gone), id) == AfterRemoval(allTx, rank, was, id)
    ensures |Dependents(allTx, rank, Elements(Without(was, gone)), id)| < |Dependents(allTx, rank, Elements(was), id)|
  {
    assert hashes[0] in hashes;
    assert hashes[0] in Dependents(allTx, rank, Elements(was), id);
    ProgressDone(allTx, rank, Elements(was), id, gone);
    WithoutElements(was, gone);
    WithoutTwice(was, gone, {id});
    assert {id} + {} == {id} && gone + {id} == {id} + gone;
  }

  /** Keys are only generated to fill the gap. */
  predicate NoMore(was: seq<Pkh>, chain: seq<Pkh>, gapLimit: nat, used: set<Pkh>) {
    was <= chain && (|chain| > |was| ==> |chain| <= AfterLastUsed(chain, used) + gapLimit)
  }

  lemma KeysGrow(was: seq<Pkh>, chain: seq<Pkh>)
    requires was <= chain
    ensures Elements(chain) == Elements(was) + Elements(chain[|was|..])
  {
    assert chain == was + chain[|was|..];
  }

  lemma MoreKeysKeepValid(allTx: map<Hash, Tx>, height: map<Hash, nat>, was: set<Pkh>, keys: set<Pkh>, list: seq<Hash>)
    requires GoodList(allTx, height, was, list) && was <= keys
    ensures GoodList(allTx, height, keys, list)
  {
    forall id | id in list ensures Concerns(allTx, keys, allTx[id]) {
      MoreKeysConcern(allTx, was, keys, allTx[id]);
    }
  }

  lemma MoreKeysConcern(allTx: map<Hash, Tx>, was: set<Pkh>, keys: set<Pkh>, tx: Tx)
    requires was <= keys
    ensures Concerns(allTx, was, tx) ==> Concerns(allTx, keys, tx)
  {
    forall k | 0 <= k < |tx.inputs| && PaysFrom(allTx, was, tx.inputs[k].prev) ensures PaysFrom(allTx, keys, tx.inputs[k].prev) {}
  }

  ghost predicate NotLower(allTx: map<Hash, Tx>, height: map<Hash, nat>, list: seq<Hash>)
    requires allTx.Keys <= height.Keys && forall id :: id in list ==> id in allTx
  {
    forall s, id :: s in list && id in allTx && SpendsFrom(allTx[s], id) ==> height[s] >= height[id]
  }

  /** Adding a transaction keeps the list orderly if and only if it comes in order. */
  lemma OrderAfterAdding(b: Book, list: seq<Hash>, list': seq<Hash>, tx: Tx, h: nat, time: nat, listed: bool)
    requires b.allTx.Keys <= b.height.Keys && (forall id :: id in list ==> id in b.allTx) && tx.hash !in b.allTx
    requires !SpendsFrom(tx, tx.hash) && forall id :: id in list' <==> id in list || (listed && id == tx.hash)
    ensures var b' := Added(b, tx, h, time);
         NotLower(b'.allTx, b'.height, list') <==> NotLower(b.allTx, b.height, list) && InOrder(b, list, tx, h, listed)
  {
    var b' := Added(b, tx, h, time);
    hide SpendsFrom;
    if NotLower(b'.allTx, b'.height, list') {
      forall s, id | s in list && id in b.allTx && SpendsFrom(b.allTx[s], id) ensures b.height[s] >= b.height[id] {
        assert s in list' && id in b'.allTx && b'.allTx[s] == b.allTx[s];
        assert b'.height[s] == b.height[s] && b'.height[id] == b.height[id];
      }
      forall s | s in list && SpendsFrom(b.allTx[s], tx.hash) ensures b.height[s] >= h {
        assert s in list' && tx.hash in b'.allTx && b'.allTx[s] == b.allTx[s];
        assert b'.height[s] == b.height[s];
      }
      if listed {
        forall id | id in b.allTx && SpendsFrom(tx, id) ensures h >= b.height[id] {
          assert tx.hash in list' && id in b'.allTx && b'.allTx[tx.hash] == tx && b'.height[id] == b.height[id];
        }
      }
    }
  }

  lemma UnconfirmKeepsOrder(b: Book, list: seq<Hash>, h: nat)
    requires b.allTx.Keys == b.height.Keys && (forall id :: id in list ==> id in b.allTx) && NotLower(b.allTx, b.height, list)
    requires forall id :: id in b.height ==> b.height[id] <= TX_UNCONFIRMED
    ensures NotLower(b.allTx, HeightsAfter(b.height, list, h), list)
  {
    hide SpendsFrom;
  }

  /** Where a transaction that gets the new height spends from one that does not, or the other way
      round, the new height comes in order. */
  ghost predicate SweptInOrder(b: Book, keys: set<Pkh>, list: seq<Hash>, h: nat, time: nat, ids: seq<Hash>) {
    forall s, id :: s in list && s in b.allTx && s in b.height && id in b.allTx && id in b.height && SpendsFrom(b.allTx[s], id)
                    && !(id in ids && Drops(b, keys, h, time, id)) ==>
      && (s in ids && id !in ids ==> h >= b.height[id])
      && (id in ids && s !in ids ==> b.height[s] >= h)
  }

  lemma OrderAfterSweep(b: Book, b': Book, keys: set<Pkh>, list: seq<Hash>, list': seq<Hash>, h: nat, time: nat, ids: seq<Hash>)
    requires b.allTx.Keys <= b.height.Keys && (forall id :: id in list ==> id in b.allTx) && NotLower(b.allTx, b.height, list)
    requires Swept(b, keys, h, time, ids, b') && (forall id :: id in list' <==> id in list) && forall id :: id in list' ==> id in b'.allTx
    requires b'.allTx.Keys <= b'.height.Keys
    ensures NotLower(b'.allTx, b'.height, list') <==> SweptInOrder(b, keys, list, h, time, ids)
  {
    hide SpendsFrom, Drops;
    if NotLower(b'.allTx, b'.height, list') {
      forall s, id | s in list && s in b.allTx && id in b.allTx && SpendsFrom(b.allTx[s], id) && !(id in ids && Drops(b, keys, h, time, id))
        ensures b'.height[s] >= b'.height[id]
      {
        assert s in list' && b'.allTx[s] == b.allTx[s] && id in b'.allTx;
      }
    } else {
      var s, id :| s in list' && id in b'.allTx && SpendsFrom(b'.allTx[s], id) && b'.height[s] < b'.height[id];
      assert s in list && b'.allTx[s] == b.allTx[s] && id in b.allTx;
    }
  }

  lemma NotOwnInput(tx: Tx, rank: Hash -> nat)
    requires forall k :: 0 <= k < |tx.inputs| ==> rank(tx.inputs[k].prev.txHash) < rank(tx.hash)
    ensures !SpendsFrom(tx, tx.hash)
  {}

  lemma NotOwnSpender(allTx: map<Hash, Tx>, rank: Hash -> nat, id: Hash)
    requires Acyclic(allTx, rank) && id in allTx
    ensures !SpendsFrom(allTx[id], id)
  {
    forall k | 0 <= k < |allTx[id].inputs| ensures allTx[id].inputs[k].prev.txHash != id {
      assert rank(allTx[id].inputs[k].prev.txHash) < rank(id);
    }
  }

  /** The scan stops only where no spender can be any more. */
  lemma SpendersInSuffix(allTx: map<Hash, Tx>, height: map<Hash, nat>, list: seq<Hash>, id: Hash, i: nat)
    requires allTx.Keys <= height.Keys && (forall x :: x in list ==> x in allTx) && NotLower(allTx, height, list)
    requires SortedByHeight(height, list) && id in allTx && i <= |list| && (i > 0 ==> height[list[i - 1]] < height[id])
    ensures forall s :: s in list[i..] && SpendsFrom(allTx[s], id) <==> DirectSpender(allTx, Elements(list), s, id)
  {
    forall s | s in list && SpendsFrom(allTx[s], id) ensures s in list[i..] {
      var k :| 0 <= k < |list| && list[k] == s;
      assert height[s] >= height[id];
      assert list[i..][k - i] == s;
    }
  }

  lemma RemovalKeepsValid(allTx: map<Hash, Tx>, height: map<Hash, nat>, keys: set<Pkh>, list: seq<Hash>, gone: set<Hash>)
    requires allTx.Keys <= height.Keys && GoodList(allTx, height, keys, list) && NotLower(allTx, height, list)
    ensures GoodList(allTx, height, keys, Without(list, gone)) && NotLower(allTx, height, Without(list, gone))
  {
    WithoutIs(list, gone);
    WithoutKeepsOrder(list, gone, height);
  }

  lemma WithoutElements(list: seq<Hash>, gone: set<Hash>)
    ensures Elements(Without(list, gone)) == Elements(list) - gone
  {
    WithoutIs(list, gone);
  }

  /** In a sorted list the elements above h are the suffix that a scan from the end stops at. */
  lemma Suffix(height: map<Hash, nat>, list: seq<Hash>, i: nat, h: nat)
    requires (forall id :: id in list ==> id in height) && SortedByHeight(height, list) && i <= |list|
    requires (i > 0 ==> height[list[i - 1]] <= h) && forall k :: i <= k < |list| ==> height[list[k]] > h
    ensures forall id :: id in list[i..] <==> id in list && height[id] > h
  {
    forall id | id in list && height[id] > h ensures id in list[i..] {
      var k :| 0 <= k < |list| && list[k] == id;
      assert list[i..][k - i] == id;
    }
  }

  lemma EmptyRun(c: Context, ids: seq<Hash>)
    ensures ids[..0] == [] && Run(c, ids[..0]) == NOTHING && Total(c.allTx, []) == 0
  {}

  lemma PrefixStep(c: Context, ids: seq<Hash>, i: nat)
    requires WellFormed(c, ids) && i < |ids|
    ensures Run(c, ids[..i + 1]) == Step(c, Run(c, ids[..i]), ids[i])
    ensures forall o :: o in Run(c, ids[..i]).utxos ==> o.txHash in c.allTx && o.index < |c.allTx[o.txHash].outputs|
  {
    assert ids[..i + 1][..i] == ids[..i];
    UtxosInvariant(c, ids[..i]);
  }

  lemma AppendOwned(s: seq<OutPoint>, owned: set<Pkh>, tx: Tx, n: nat)
    requires n < |tx.outputs| && IsOwned(owned, tx.outputs[n])
    ensures s + OwnedOutputs(owned, tx, n) + [OutPoint(tx.hash, n)] == s + OwnedOutputs(owned, tx, n + 1)
  {}
}
