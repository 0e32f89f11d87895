/** Gap-limit address generation: the chain walk of BRWalletUnusedAddrs (core/bitcoin/BRWallet.c). */
module AddressChain {
  import opened Blocks
  import opened Ledger

  /** Key derivation, abstractly: the key hash at a position of the internal or external chain, or
      None where no valid key exists. */
  type Derivation = (bool, nat) -> Option<Pkh>

  /** No key repeats within a chain. */
  ghost predicate DistinctKeys(derive: Derivation) {
    forall internal, a, b :: derive(internal, a).Some? && derive(internal, a) == derive(internal, b) ==> a == b
  }

  ghost predicate Derived(derive: Derivation, internal: bool, chain: seq<Pkh>) {
    forall k :: 0 <= k < |chain| ==> derive(internal, k) == Some(chain[k])
  }

  /** Position just after the last used key. */
  function AfterLastUsed(chain: seq<Pkh>, used: set<Pkh>): (n: nat)
    ensures n <= |chain|
    ensures forall k :: n <= k < |chain| ==> chain[k] !in used
    ensures n > 0 ==> chain[n - 1] in used
  {
    if chain == [] || chain[|chain| - 1] in used then |chain| else AfterLastUsed(chain[..|chain| - 1], used)
  }

  lemma {:induction false} AfterLastUsedIs(chain: seq<Pkh>, used: set<Pkh>, n: nat)
    requires n <= |chain| && (forall k :: n <= k < |chain| ==> chain[k] !in used) && (n > 0 ==> chain[n - 1] in used)
    ensures AfterLastUsed(chain, used) == n
  {
    if n < |chain| { AfterLastUsedIs(chain[..|chain| - 1], used, n); }
  }

  lemma FreshKey(derive: Derivation, internal: bool, chain: seq<Pkh>)
    requires DistinctKeys(derive) && Derived(derive, internal, chain) && derive(internal, |chain|).Some?
    ensures derive(internal, |chain|).value !in chain
  {
    forall k | 0 <= k < |chain| ensures chain[k] != derive(internal, |chain|).value {
      assert derive(internal, k) == Some(chain[k]);
    }
  }

  /** Walk back over the unused tail, then generate until gapLimit unused keys follow the last used
      one.  Ends because each used key can be met only once. */
  method Extend(chain: seq<Pkh>, used: set<Pkh>, gapLimit: nat, derive: Derivation, internal: bool)
    returns (extended: seq<Pkh>, i: nat)
    requires gapLimit > 0 && DistinctKeys(derive) && Derived(derive, internal, chain)
    ensures chain <= extended && Derived(derive, internal, extended)
    ensures i == AfterLastUsed(extended, used)
    ensures i + gapLimit <= |extended| || derive(internal, |extended|).None?
    ensures |extended| > |chain| ==> |extended| <= i + gapLimit
  {
    extended := chain;
    i := |chain|;
    while i > 0 && chain[i - 1] !in used
      invariant i <= |chain| && forall k :: i <= k < |chain| ==> chain[k] !in used
    {
      i := i - 1;
    }
    while i + gapLimit > |extended|
      invariant chain <= extended && Derived(derive, internal, extended)
      invariant i <= |extended| && (forall k :: i <= k < |extended| ==> extended[k] !in used) && (i > 0 ==> extended[i - 1] in used)
      invariant |extended| > |chain| ==> |extended| <= i + gapLimit
      decreases used - Elements(extended), i + gapLimit - |extended|
    {
      ghost var before := extended;
      var key := derive(internal, |extended|);
      if key.None? { break; }
      FreshKey(derive, internal, extended);
      extended := extended + [key.value];
      assert Elements(extended) == Elements(before) + {key.value};
      if key.value in used {
        i := |extended|;
        assert key.value in used - Elements(before) && key.value !in used - Elements(extended);
      } else {
        assert used - Elements(extended) == used - Elements(before);
      }
    }
    AfterLastUsedIs(extended, used, i);
  }
}
