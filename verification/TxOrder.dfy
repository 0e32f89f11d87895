/** How core/bitcoin/BRWallet.c orders its transactions, and which transactions depend on which. */
module TxOrder {
  import opened Blocks
  import opened Ledger

  /** Ancestry has no cycles: every transaction ranks above those it spends from. */
  ghost predicate Acyclic(allTx: map<Hash, Tx>, rank: Hash -> nat) {
    forall id, k :: id in allTx && 0 <= k < |allTx[id].inputs| ==> rank(allTx[id].inputs[k].prev.txHash) < rank(id)
  }

  /** _BRWalletTxIsAscending: a must come after b, by height or else by ancestry. */
  predicate IsAscending(allTx: map<Hash, Tx>, height: map<Hash, nat>, ghost rank: Hash -> nat, a: Hash, b: Hash)
    requires Acyclic(allTx, rank) && allTx.Keys <= height.Keys
    decreases rank(a)
  {
    a in allTx && b in allTx &&
    if height[a] != height[b] then height[a] > height[b]
    else if SpendsFrom(allTx[a], b) then true
    else if SpendsFrom(allTx[b], a) then false
    else exists k :: 0 <= k < |allTx[a].inputs| && IsAscending(allTx, height, rank, allTx[a].inputs[k].prev.txHash, b)
  }

  predicate PaysTo(tx: Tx, pkh: Pkh) {
    exists j :: 0 <= j < |tx.outputs| && tx.outputs[j].pkh == Some(pkh)
  }

  /** The last of the first n chain positions that tx pays to, or -1. */
  function ChainIndex(tx: Tx, chain: seq<Pkh>, n: nat): int
    requires n <= |chain|
  {
    if n == 0 then -1 else if PaysTo(tx, chain[n - 1]) then n - 1 else ChainIndex(tx, chain, n - 1)
  }

  function ByChain(a: Tx, b: Tx, internal: seq<Pkh>, external: seq<Pkh>): int {
    var i0 := ChainIndex(a, internal, |internal|);
    var j0 := if i0 != -1 then ChainIndex(b, internal, |internal|) else -1;
    var i := if j0 == -1 then ChainIndex(a, external, |external|) else i0;
    var j := if j0 == -1 && i != -1 then ChainIndex(b, external, |external|) else j0;
    if i != -1 && j != -1 && i != j then (if i > j then 1 else -1) else 0
  }

  /** _BRWalletTxCompare; only a partial order, since chain positions are compared last. */
  function Compare(allTx: map<Hash, Tx>, height: map<Hash, nat>, ghost rank: Hash -> nat,
                   internal: seq<Pkh>, external: seq<Pkh>, a: Hash, b: Hash): int
    requires Acyclic(allTx, rank) && allTx.Keys <= height.Keys && a in allTx && b in allTx
  {
    if IsAscending(allTx, height, rank, a, b) then 1
    else if IsAscending(allTx, height, rank, b, a) then -1
    else ByChain(allTx[a], allTx[b], internal, external)
  }

  /** Whatever else it decides on, the comparison never contradicts the heights. */
  lemma CompareRespectsHeight(allTx: map<Hash, Tx>, height: map<Hash, nat>, rank: Hash -> nat,
                              internal: seq<Pkh>, external: seq<Pkh>, a: Hash, b: Hash)
    requires Acyclic(allTx, rank) && allTx.Keys <= height.Keys && a in allTx && b in allTx
    ensures height[a] > height[b] ==> Compare(allTx, height, rank, internal, external, a, b) > 0
    ensures height[a] < height[b] ==> Compare(allTx, height, rank, internal, external, a, b) < 0
  {}

  // ---- What the comparison means

  /** a spends from b, or from a known transaction of b's height that descends from b. */
  ghost predicate Descends(allTx: map<Hash, Tx>, height: map<Hash, nat>, rank: Hash -> nat, a: Hash, b: Hash)
    requires Acyclic(allTx, rank) && allTx.Keys <= height.Keys && b in height
    decreases rank(a)
  {
    && a in allTx
    && (|| SpendsFrom(allTx[a], b)
        || (exists k :: 0 <= k < |allTx[a].inputs|
              && (var q := allTx[a].inputs[k].prev.txHash; q in allTx && height[q] == height[b] && Descends(allTx, height, rank, q, b))))
  }

  lemma {:induction false} DescendantRanks(allTx: map<Hash, Tx>, height: map<Hash, nat>, rank: Hash -> nat, a: Hash, b: Hash)
    requires Acyclic(allTx, rank) && allTx.Keys <= height.Keys && b in height && Descends(allTx, height, rank, a, b)
    ensures rank(b) < rank(a)
    decreases rank(a)
  {
    if !SpendsFrom(allTx[a], b) {
      var k :| 0 <= k < |allTx[a].inputs| && var q := allTx[a].inputs[k].prev.txHash;
        q in allTx && height[q] == height[b] && Descends(allTx, height, rank, q, b);
      DescendantRanks(allTx, height, rank, allTx[a].inputs[k].prev.txHash, b);
    }
  }

  /** Nothing known is higher, as is the case for an unconfirmed transaction. */
  ghost predicate AtTop(allTx: map<Hash, Tx>, height: map<Hash, nat>, h: nat)
    requires allTx.Keys <= height.Keys
  {
    forall x :: x in allTx ==> height[x] <= h
  }

  /** Of two transactions at the top, a must come after b exactly when it descends from it. */
  lemma {:induction false} AscendingIs(allTx: map<Hash, Tx>, height: map<Hash, nat>, rank: Hash -> nat, a: Hash, b: Hash)
    requires Acyclic(allTx, rank) && allTx.Keys <= height.Keys && b in allTx && AtTop(allTx, height, height[b])
    ensures IsAscending(allTx, height, rank, a, b) <==> a in allTx && height[a] == height[b] && Descends(allTx, height, rank, a, b)
    decreases rank(a)
  {
    if a in allTx && height[a] == height[b] && !SpendsFrom(allTx[a], b) {
      if SpendsFrom(allTx[b], a) {
        if Descends(allTx, height, rank, a, b) { DescendantRanks(allTx, height, rank, a, b); }
      } else {
        forall k | 0 <= k < |allTx[a].inputs|
          ensures var q := allTx[a].inputs[k].prev.txHash;
            IsAscending(allTx, height, rank, q, b) <==> q in allTx && height[q] == height[b] && Descends(allTx, height, rank, q, b)
        {
          AscendingIs(allTx, height, rank, allTx[a].inputs[k].prev.txHash, b);
        }
      }
    }
  }

  /** A direct parent that is not higher compares below, whatever the other heights are. */
  lemma ParentComparesBelow(allTx: map<Hash, Tx>, height: map<Hash, nat>, rank: Hash -> nat,
                            internal: seq<Pkh>, external: seq<Pkh>, p: Hash, id: Hash)
    requires Acyclic(allTx, rank) && allTx.Keys <= height.Keys && p in allTx && id in allTx
    requires height[p] <= height[id] && SpendsFrom(allTx[id], p)
    ensures Compare(allTx, height, rank, internal, external, p, id) < 0
  {
    assert rank(p) < rank(id);
    assert !SpendsFrom(allTx[p], id);
  }

  /** So does any ancestor of the same height through known transactions of that height, at the top. */
  lemma AncestorComparesBelow(allTx: map<Hash, Tx>, height: map<Hash, nat>, rank: Hash -> nat,
                              internal: seq<Pkh>, external: seq<Pkh>, p: Hash, id: Hash)
    requires Acyclic(allTx, rank) && allTx.Keys <= height.Keys && p in allTx && id in allTx
    requires height[p] == height[id] && AtTop(allTx, height, height[id]) && Descends(allTx, height, rank, id, p)
    ensures Compare(allTx, height, rank, internal, external, p, id) < 0
  {
    hide IsAscending, Descends, Acyclic, AtTop;
    AscendingIs(allTx, height, rank, p, id);
    AscendingIs(allTx, height, rank, id, p);
    DescendantRanks(allTx, height, rank, id, p);
    if Descends(allTx, height, rank, p, id) { DescendantRanks(allTx, height, rank, p, id); }
  }

  /** i is the last position of the chain that tx pays to. */
  ghost predicate LastPaid(tx: Tx, chain: seq<Pkh>, i: nat) {
    i < |chain| && PaysTo(tx, chain[i]) && forall k :: i < k < |chain| ==> !PaysTo(tx, chain[k])
  }

  lemma {:induction false} ChainIndexIs(tx: Tx, chain: seq<Pkh>, n: nat)
    requires n <= |chain|
    ensures var i := ChainIndex(tx, chain, n);
         && -1 <= i < n && (i >= 0 ==> PaysTo(tx, chain[i])) && forall k :: i < k < n ==> !PaysTo(tx, chain[k])
  {
    if n > 0 { ChainIndexIs(tx, chain, n - 1); }
  }

  lemma LastPaidIs(tx: Tx, chain: seq<Pkh>)
    ensures ChainIndex(tx, chain, |chain|) >= -1
    ensures forall i: nat :: LastPaid(tx, chain, i) <==> ChainIndex(tx, chain, |chain|) == i
    ensures ChainIndex(tx, chain, |chain|) >= 0 <==> exists i :: 0 <= i < |chain| && PaysTo(tx, chain[i])
  {
    hide PaysTo;
    ChainIndexIs(tx, chain, |chain|);
  }

  ghost predicate PaysChain(tx: Tx, chain: seq<Pkh>) {
    exists i :: 0 <= i < |chain| && PaysTo(tx, chain[i])
  }

  /** Transactions that are not related go in the order of the last addresses they pay to: internal ones if
      both pay to some, and external ones otherwise. */
  lemma UnrelatedByChain(allTx: map<Hash, Tx>, height: map<Hash, nat>, rank: Hash -> nat,
                         internal: seq<Pkh>, external: seq<Pkh>, a: Hash, b: Hash, i: nat, j: nat)
    requires Acyclic(allTx, rank) && allTx.Keys <= height.Keys && a in allTx && b in allTx
    requires !IsAscending(allTx, height, rank, a, b) && !IsAscending(allTx, height, rank, b, a)
    requires var chain := if PaysChain(allTx[a], internal) && PaysChain(allTx[b], internal) then internal else external;
         LastPaid(allTx[a], chain, i) && LastPaid(allTx[b], chain, j)
    ensures Compare(allTx, height, rank, internal, external, a, b) == if i > j then 1 else if i < j then -1 else 0
  {
    LastPaidIs(allTx[a], internal);
    LastPaidIs(allTx[b], internal);
    LastPaidIs(allTx[a], external);
    LastPaidIs(allTx[b], external);
    hide IsAscending, Acyclic, PaysTo, LastPaid, ChainIndex;
  }

  /** Insertion from the end: id goes behind the last element that does not compare above it. */
  function Inserted(allTx: map<Hash, Tx>, height: map<Hash, nat>, ghost rank: Hash -> nat,
                    internal: seq<Pkh>, external: seq<Pkh>, list: seq<Hash>, id: Hash): (r: seq<Hash>)
    requires Acyclic(allTx, rank) && allTx.Keys <= height.Keys && id in allTx && forall x :: x in list ==> x in allTx
    ensures |r| == |list| + 1
  {
    if list == [] || Compare(allTx, height, rank, internal, external, list[|list| - 1], id) <= 0 then list + [id]
    else Inserted(allTx, height, rank, internal, external, list[..|list| - 1], id) + [list[|list| - 1]]
  }

  lemma {:induction false} InsertedAt(allTx: map<Hash, Tx>, height: map<Hash, nat>, rank: Hash -> nat,
                                      internal: seq<Pkh>, external: seq<Pkh>, list: seq<Hash>, id: Hash, i: nat)
    requires Acyclic(allTx, rank) && allTx.Keys <= height.Keys && id in allTx && (forall x :: x in list ==> x in allTx)
    requires i <= |list| && (i > 0 ==> Compare(allTx, height, rank, internal, external, list[i - 1], id) <= 0)
    requires forall k :: i <= k < |list| ==> Compare(allTx, height, rank, internal, external, list[k], id) > 0
    ensures Inserted(allTx, height, rank, internal, external, list, id) == list[..i] + [id] + list[i..]
    decreases |list|
  {
    if i < |list| {
      var before := list[..|list| - 1];
      InsertedAt(allTx, height, rank, internal, external, before, id, i);
      assert before[..i] == list[..i] && before[i..] + [list[|list| - 1]] == list[i..];
    } else {
      assert list[..i] == list && list[i..] == [];
    }
  }

  lemma {:induction false} InsertedElements(allTx: map<Hash, Tx>, height: map<Hash, nat>, rank: Hash -> nat,
                                            internal: seq<Pkh>, external: seq<Pkh>, list: seq<Hash>, id: Hash)
    requires Acyclic(allTx, rank) && allTx.Keys <= height.Keys && id in allTx && forall x :: x in list ==> x in allTx
    ensures var r := Inserted(allTx, height, rank, internal, external, list, id);
         && (forall x :: x in r <==> x in list || x == id)
         && (NoDuplicates(list) && id !in list ==> NoDuplicates(r))
  {
    if list != [] && Compare(allTx, height, rank, internal, external, list[|list| - 1], id) > 0 {
      var before := list[..|list| - 1];
      var last := list[|list| - 1];
      InsertedElements(allTx, height, rank, internal, external, before, id);
      assert list == before + [last];
      if NoDuplicates(list) && id !in list {
        NoDuplicatesConcat(Inserted(allTx, height, rank, internal, external, before, id), [last]);
      }
    } else if NoDuplicates(list) && id !in list {
      NoDuplicatesConcat(list, [id]);
    }
  }

  /** a comes before b. */
  ghost predicate Before(list: seq<Hash>, a: Hash, b: Hash) {
    exists i, j :: 0 <= i < j < |list| && list[i] == a && list[j] == b
  }

  /** What compares below the inserted transaction stays in front of it. */
  lemma {:induction false} InsertedBehind(allTx: map<Hash, Tx>, height: map<Hash, nat>, rank: Hash -> nat,
                                          internal: seq<Pkh>, external: seq<Pkh>, list: seq<Hash>, id: Hash, p: Hash)
    requires Acyclic(allTx, rank) && allTx.Keys <= height.Keys && id in allTx && (forall x :: x in list ==> x in allTx)
    requires p in list && Compare(allTx, height, rank, internal, external, p, id) <= 0
    ensures Before(Inserted(allTx, height, rank, internal, external, list, id), p, id)
  {
    hide Compare, Acyclic;
    var n := |list| - 1;
    if Compare(allTx, height, rank, internal, external, list[n], id) <= 0 {
      var i :| 0 <= i < |list| && list[i] == p;
      assert (list + [id])[i] == p && (list + [id])[|list|] == id;
    } else {
      assert p in list[..n];
      InsertedBehind(allTx, height, rank, internal, external, list[..n], id, p);
      var r := Inserted(allTx, height, rank, internal, external, list[..n], id);
      var i, j :| 0 <= i < j < |r| && r[i] == p && r[j] == id;
      assert (r + [list[n]])[i] == p && (r + [list[n]])[j] == id;
    }
  }

  /** id stands behind all listed transactions that it spends from and that are not higher. */
  ghost predicate BehindParents(allTx: map<Hash, Tx>, height: map<Hash, nat>, list: seq<Hash>, id: Hash) {
    forall p :: p in list && p != id && p in height && id in height && id in allTx && height[p] <= height[id] && SpendsFrom(allTx[id], p)
      ==> Before(list, p, id)
  }

  lemma InsertedBehindParents(allTx: map<Hash, Tx>, height: map<Hash, nat>, rank: Hash -> nat,
                              internal: seq<Pkh>, external: seq<Pkh>, list: seq<Hash>, id: Hash)
    requires Acyclic(allTx, rank) && allTx.Keys <= height.Keys && id in allTx && (forall x :: x in list ==> x in allTx)
    ensures BehindParents(allTx, height, Inserted(allTx, height, rank, internal, external, list, id), id)
  {
    hide Compare, Inserted, Acyclic, Before, SpendsFrom;
    InsertedElements(allTx, height, rank, internal, external, list, id);
    var r := Inserted(allTx, height, rank, internal, external, list, id);
    forall p | p in r && p != id && height[p] <= height[id] && SpendsFrom(allTx[id], p) ensures Before(r, p, id) {
      ParentComparesBelow(allTx, height, rank, internal, external, p, id);
      InsertedBehind(allTx, height, rank, internal, external, list, id, p);
    }
  }

  /** An unconfirmed transaction is inserted behind its listed ancestors of any degree. */
  lemma InsertedBehindAncestor(allTx: map<Hash, Tx>, height: map<Hash, nat>, rank: Hash -> nat,
                               internal: seq<Pkh>, external: seq<Pkh>, list: seq<Hash>, id: Hash, p: Hash)
    requires Acyclic(allTx, rank) && allTx.Keys <= height.Keys && id in allTx && (forall x :: x in list ==> x in allTx)
    requires p in list && height[p] == height[id] && AtTop(allTx, height, height[id]) && Descends(allTx, height, rank, id, p)
    ensures Before(Inserted(allTx, height, rank, internal, external, list, id), p, id)
  {
    hide Compare, Inserted, Acyclic, Before, Descends, AtTop;
    AncestorComparesBelow(allTx, height, rank, internal, external, p, id);
    InsertedBehind(allTx, height, rank, internal, external, list, id, p);
  }

  lemma SortedSnoc(height: map<Hash, nat>, list: seq<Hash>, x: Hash)
    requires x in height && (forall y :: y in list ==> y in height && height[y] <= height[x]) && SortedByHeight(height, list)
    ensures (forall y :: y in list + [x] ==> y in height) && SortedByHeight(height, list + [x])
  {}

  lemma SortedLast(height: map<Hash, nat>, list: seq<Hash>)
    requires (forall y :: y in list ==> y in height) && SortedByHeight(height, list) && list != []
    ensures forall y :: y in list ==> height[y] <= height[list[|list| - 1]]
  {}

  lemma {:induction false} InsertedSorted(allTx: map<Hash, Tx>, height: map<Hash, nat>, rank: Hash -> nat,
                                          internal: seq<Pkh>, external: seq<Pkh>, list: seq<Hash>, id: Hash)
    requires Acyclic(allTx, rank) && allTx.Keys <= height.Keys && id in allTx && (forall x :: x in list ==> x in allTx)
    requires SortedByHeight(height, list)
    ensures var r := Inserted(allTx, height, rank, internal, external, list, id);
         && (forall x :: x in r ==> x in height)
         && SortedByHeight(height, r)
  {
    if list == [] {
    } else {
      var last := list[|list| - 1];
      CompareRespectsHeight(allTx, height, rank, internal, external, last, id);
      SortedLast(height, list);
      if Compare(allTx, height, rank, internal, external, last, id) > 0 {
        var before := list[..|list| - 1];
        InsertedElements(allTx, height, rank, internal, external, before, id);
        InsertedSorted(allTx, height, rank, internal, external, before, id);
        SortedSnoc(height, Inserted(allTx, height, rank, internal, external, before, id), last);
      } else {
        SortedSnoc(height, list, id);
      }
    }
  }

  // ---- Dependency

  /** x is listed and spends, directly or through listed transactions, from id. */
  ghost predicate DependsOn(allTx: map<Hash, Tx>, rank: Hash -> nat, listed: set<Hash>, x: Hash, id: Hash)
    requires Acyclic(allTx, rank)
    decreases rank(x)
  {
    x in listed && x in allTx &&
    exists k :: 0 <= k < |allTx[x].inputs| &&
      (allTx[x].inputs[k].prev.txHash == id || DependsOn(allTx, rank, listed, allTx[x].inputs[k].prev.txHash, id))
  }

  ghost function Dependents(allTx: map<Hash, Tx>, rank: Hash -> nat, listed: set<Hash>, id: Hash): set<Hash>
    requires Acyclic(allTx, rank)
  {
    set x | x in listed && DependsOn(allTx, rank, listed, x, id)
  }

  lemma {:induction false} DependsRanks(allTx: map<Hash, Tx>, rank: Hash -> nat, listed: set<Hash>, x: Hash, id: Hash)
    requires Acyclic(allTx, rank) && DependsOn(allTx, rank, listed, x, id)
    ensures rank(id) < rank(x)
    decreases rank(x)
  {
    var k :| 0 <= k < |allTx[x].inputs| &&
      (allTx[x].inputs[k].prev.txHash == id || DependsOn(allTx, rank, listed, allTx[x].inputs[k].prev.txHash, id));
    if allTx[x].inputs[k].prev.txHash != id {
      DependsRanks(allTx, rank, listed, allTx[x].inputs[k].prev.txHash, id);
    }
  }

  lemma {:induction false} DependsTransitive(allTx: map<Hash, Tx>, rank: Hash -> nat, listed: set<Hash>, x: Hash, y: Hash, id: Hash)
    requires Acyclic(allTx, rank) && DependsOn(allTx, rank, listed, x, y) && DependsOn(allTx, rank, listed, y, id)
    ensures DependsOn(allTx, rank, listed, x, id)
    decreases rank(x)
  {
    var k :| 0 <= k < |allTx[x].inputs| &&
      (allTx[x].inputs[k].prev.txHash == y || DependsOn(allTx, rank, listed, allTx[x].inputs[k].prev.txHash, y));
    if allTx[x].inputs[k].prev.txHash != y {
      DependsTransitive(allTx, rank, listed, allTx[x].inputs[k].prev.txHash, y, id);
    }
  }

  /** gone holds every listed transaction that spends from one of its members. */
  ghost predicate Closed(allTx: map<Hash, Tx>, listed: set<Hash>, gone: set<Hash>) {
    forall x, y :: x in listed && x in allTx && y in gone && SpendsFrom(allTx[x], y) ==> x in gone
  }

  /** Dropping a closed set leaves the dependencies of the others as they were. */
  lemma {:induction false} DependsAfterRemoval(allTx: map<Hash, Tx>, rank: Hash -> nat, listed: set<Hash>, gone: set<Hash>, x: Hash, id: Hash)
    requires Acyclic(allTx, rank) && Closed(allTx, listed, gone) && x in listed - gone
    ensures DependsOn(allTx, rank, listed, x, id) <==> DependsOn(allTx, rank, listed - gone, x, id)
    decreases rank(x)
  {
    if x in allTx {
      forall k | 0 <= k < |allTx[x].inputs|
        ensures DependsOn(allTx, rank, listed, allTx[x].inputs[k].prev.txHash, id)
           <==> DependsOn(allTx, rank, listed - gone, allTx[x].inputs[k].prev.txHash, id)
      {
        var y := allTx[x].inputs[k].prev.txHash;
        assert SpendsFrom(allTx[x], y);
        if y in listed - gone { DependsAfterRemoval(allTx, rank, listed, gone, y, id); }
      }
    }
  }

  ghost predicate DirectSpender(allTx: map<Hash, Tx>, listed: set<Hash>, s: Hash, id: Hash) {
    s in listed && s in allTx && SpendsFrom(allTx[s], id)
  }

  /** A dependent spends from id itself or depends on one that does. */
  lemma {:induction false} DirectOrThrough(allTx: map<Hash, Tx>, rank: Hash -> nat, listed: set<Hash>, x: Hash, id: Hash)
    requires Acyclic(allTx, rank) && DependsOn(allTx, rank, listed, x, id)
    ensures DirectSpender(allTx, listed, x, id)
         || exists s :: DirectSpender(allTx, listed, s, id) && DependsOn(allTx, rank, listed, x, s)
    decreases rank(x)
  {
    if !SpendsFrom(allTx[x], id) {
      var k :| 0 <= k < |allTx[x].inputs| &&
        (allTx[x].inputs[k].prev.txHash == id || DependsOn(allTx, rank, listed, allTx[x].inputs[k].prev.txHash, id));
      var y := allTx[x].inputs[k].prev.txHash;
      DirectOrThrough(allTx, rank, listed, y, id);
      assert DependsOn(allTx, rank, listed, x, y);
      if !DirectSpender(allTx, listed, y, id) {
        var s :| DirectSpender(allTx, listed, s, id) && DependsOn(allTx, rank, listed, y, s);
        DependsTransitive(allTx, rank, listed, x, y, s);
      }
    }
  }

  function Without(list: seq<Hash>, gone: set<Hash>): seq<Hash> {
    if list == [] then [] else
      Without(list[..|list| - 1], gone) + if list[|list| - 1] in gone then [] else [list[|list| - 1]]
  }

  lemma {:induction false} WithoutIs(list: seq<Hash>, gone: set<Hash>)
    ensures forall x :: x in Without(list, gone) <==> x in list && x !in gone
  {
    if list != [] {
      assert list == list[..|list| - 1] + [list[|list| - 1]];
      WithoutIs(list[..|list| - 1], gone);
    }
  }

  lemma {:induction false} WithoutKeepsOrder(list: seq<Hash>, gone: set<Hash>, height: map<Hash, nat>)
    requires (forall x :: x in list ==> x in height) && NoDuplicates(list) && SortedByHeight(height, list)
    ensures (forall x :: x in Without(list, gone) ==> x in height)
    ensures NoDuplicates(Without(list, gone)) && SortedByHeight(height, Without(list, gone))
  {
    if list != [] {
      var before, last := list[..|list| - 1], list[|list| - 1];
      assert list == before + [last];
      WithoutKeepsOrder(before, gone, height);
      WithoutIs(before, gone);
      forall i | 0 <= i < |Without(before, gone)|
        ensures height[Without(before, gone)[i]] <= height[last] && Without(before, gone)[i] != last
      {
        assert Without(before, gone)[i] in before;
      }
    }
  }

  lemma WithoutSnoc(list: seq<Hash>, x: Hash, gone: set<Hash>)
    ensures Without(list + [x], gone) == if x in gone then Without(list, gone) else Without(list, gone) + [x]
  {
    assert (list + [x])[..|list|] == list;
  }

  lemma {:induction false} WithoutTwice(list: seq<Hash>, a: set<Hash>, b: set<Hash>)
    ensures Without(Without(list, a), b) == Without(list, a + b)
  {
    if list != [] {
      var before, last := list[..|list| - 1], list[|list| - 1];
      assert list == before + [last];
      WithoutTwice(before, a, b);
      WithoutSnoc(before, last, a);
      WithoutSnoc(before, last, a + b);
      WithoutSnoc(Without(before, a), last, b);
    }
  }

  lemma {:induction false} WithoutNothing(list: seq<Hash>, gone: set<Hash>)
    requires forall x :: x in list ==> x !in gone
    ensures Without(list, gone) == list
  {
    if list != [] {
      assert list == list[..|list| - 1] + [list[|list| - 1]];
      WithoutNothing(list[..|list| - 1], gone);
    }
  }

  lemma {:induction false} WithoutConcat(a: seq<Hash>, b: seq<Hash>, gone: set<Hash>)
    ensures Without(a + b, gone) == Without(a, gone) + Without(b, gone)
  {
    if b == [] {
      assert a + b == a;
    } else {
      var before, last := b[..|b| - 1], b[|b| - 1];
      assert b == before + [last] && a + b == (a + before) + [last];
      WithoutConcat(a, before, gone);
      WithoutSnoc(a + before, last, gone);
      WithoutSnoc(before, last, gone);
    }
  }

  lemma WithoutOne(list: seq<Hash>, k: nat)
    requires NoDuplicates(list) && k < |list|
    ensures Without(list, {list[k]}) == list[..k] + list[k + 1..]
  {
    var a, x, b := list[..k], list[k], list[k + 1..];
    assert list == a + [x] + b;
    forall y | y in a ensures y !in {x} { var i :| 0 <= i < k && list[i] == y; }
    forall y | y in b ensures y !in {x} { var i :| k < i < |list| && list[i] == y; }
    WithoutMiddle(a, x, b);
  }

  lemma WithoutMiddle(a: seq<Hash>, x: Hash, b: seq<Hash>)
    requires (forall y :: y in a ==> y !in {x}) && (forall y :: y in b ==> y !in {x})
    ensures Without(a + [x] + b, {x}) == a + b
  {
    WithoutConcat(a + [x], b, {x});
    WithoutSnoc(a, x, {x});
    WithoutNothing(a, {x});
    WithoutNothing(b, {x});
  }

  // ---- Removing spenders one after the other

  /** gone is closed and holds only dependents of id. */
  ghost predicate Progress(allTx: map<Hash, Tx>, rank: Hash -> nat, listed: set<Hash>, id: Hash, gone: set<Hash>)
    requires Acyclic(allTx, rank)
  {
    Closed(allTx, listed, gone) && gone <= Dependents(allTx, rank, listed, id)
  }

  /** Removing one more direct spender of id with its remaining dependents makes progress. */
  lemma ProgressStep(allTx: map<Hash, Tx>, rank: Hash -> nat, listed: set<Hash>, id: Hash, gone: set<Hash>, s: Hash)
    requires Acyclic(allTx, rank) && Progress(allTx, rank, listed, id, gone) && DirectSpender(allTx, listed, s, id)
    ensures Progress(allTx, rank, listed, id, gone + {s} + Dependents(allTx, rank, listed - gone, s))
    ensures |Dependents(allTx, rank, listed - gone, s)| < |Dependents(allTx, rank, listed, id)|
  {
    var more := Dependents(allTx, rank, listed - gone, s);
    var all := Dependents(allTx, rank, listed, id);
    assert DependsOn(allTx, rank, listed, s, id);
    forall x | x in more ensures x in all {
      DependsAfterRemoval(allTx, rank, listed, gone, x, s);
      DependsTransitive(allTx, rank, listed, x, s, id);
    }
    if s in more { DependsRanks(allTx, rank, listed - gone, s, s); assert false; }
    SmallerSet(more, all, s);
  }

  lemma SmallerSet<T>(a: set<T>, b: set<T>, x: T)
    requires a <= b && x in b && x !in a
    ensures |a| < |b|
  {
    assert a <= b - {x};
    SubsetSize(a, b - {x});
  }

  lemma {:induction false} SubsetSize<T>(a: set<T>, b: set<T>)
    requires a <= b
    ensures |a| <= |b|
  {
    if a != {} {
      var x :| x in a;
      SubsetSize(a - {x}, b - {x});
    }
  }

  lemma {:induction false} ClosedUnderDependence(allTx: map<Hash, Tx>, rank: Hash -> nat, listed: set<Hash>, gone: set<Hash>, x: Hash, s: Hash)
    requires Acyclic(allTx, rank) && Closed(allTx, listed, gone) && s in gone && DependsOn(allTx, rank, listed, x, s)
    ensures x in gone
    decreases rank(x)
  {
    var k :| 0 <= k < |allTx[x].inputs| &&
      (allTx[x].inputs[k].prev.txHash == s || DependsOn(allTx, rank, listed, allTx[x].inputs[k].prev.txHash, s));
    var y := allTx[x].inputs[k].prev.txHash;
    assert SpendsFrom(allTx[x], y);
    if y != s { ClosedUnderDependence(allTx, rank, listed, gone, y, s); }
  }

  /** Once every direct spender is gone, exactly the dependents are, and id has none left. */
  lemma ProgressDone(allTx: map<Hash, Tx>, rank: Hash -> nat, listed: set<Hash>, id: Hash, gone: set<Hash>)
    requires Acyclic(allTx, rank) && Progress(allTx, rank, listed, id, gone)
    requires forall s :: DirectSpender(allTx, listed, s, id) ==> s in gone
    ensures gone == Dependents(allTx, rank, listed, id) && Dependents(allTx, rank, listed - gone, id) == {}
  {
    forall x | x in Dependents(allTx, rank, listed, id) ensures x in gone {
      DirectOrThrough(allTx, rank, listed, x, id);
      if !DirectSpender(allTx, listed, x, id) {
        var s :| DirectSpender(allTx, listed, s, id) && DependsOn(allTx, rank, listed, x, s);
        ClosedUnderDependence(allTx, rank, listed, gone, x, s);
      }
    }
    forall x | x in listed - gone ensures !DependsOn(allTx, rank, listed - gone, x, id) {
      DependsAfterRemoval(allTx, rank, listed, gone, x, id);
    }
  }

  lemma NoSpendersNoDependents(allTx: map<Hash, Tx>, rank: Hash -> nat, listed: set<Hash>, id: Hash)
    requires Acyclic(allTx, rank) && forall s :: !DirectSpender(allTx, listed, s, id)
    ensures Dependents(allTx, rank, listed, id) == {}
  {
    NoSpendersNoDependence(allTx, rank, listed, id);
  }

  lemma NoSpendersNoDependence(allTx: map<Hash, Tx>, rank: Hash -> nat, listed: set<Hash>, id: Hash)
    requires Acyclic(allTx, rank)
    ensures forall x :: DependsOn(allTx, rank, listed, x, id) ==> exists s :: DirectSpender(allTx, listed, s, id)
  {
    forall x | DependsOn(allTx, rank, listed, x, id) ensures exists s :: DirectSpender(allTx, listed, s, id) {
      DirectOrThrough(allTx, rank, listed, x, id);
    }
  }
}
