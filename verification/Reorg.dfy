/** Walks over the stored chain in _peerRelayedBlock (core/bitcoin/BRPeerManager.c): where a fork joins
    the main chain, and which heights its transactions get. */
module Reorg {
  import opened Blocks
  import opened ChainModel

  function Parent(blocks: BlockSet, b: Block): Option<Block> {
    if b.prev in blocks then Some(blocks[b.prev]) else None
  }

  /** b, if any, is stored and lies on the chain of h. */
  ghost predicate OnPath(blocks: BlockSet, h: Hash, b: Option<Block>)
    requires Linked(blocks)
  {
    b.Some? ==> b.value.hash in blocks && blocks[b.value.hash] == b.value && OnChain(blocks, h, b.value.hash)
  }

  ghost predicate Common(blocks: BlockSet, h: Hash, h2: Hash, x: Hash)
    requires Linked(blocks)
  {
    OnChain(blocks, h, x) && OnChain(blocks, h2, x)
  }

  /** Everything below b on its chain, but not b itself, is on the chain of its parent. */
  lemma {:induction false} OnChainStep(blocks: BlockSet, h: Hash, b: Hash, x: Hash)
    requires Linked(blocks) && OnChain(blocks, h, b) && b in blocks && OnChain(blocks, h, x)
    ensures x in blocks && blocks[x].height <= blocks[h].height
    ensures x == b || blocks[x].height != blocks[b].height
    ensures blocks[x].height < blocks[b].height ==> blocks[b].prev in blocks && OnChain(blocks, h, blocks[b].prev)
    decreases blocks[h].height
  {
    if h == b && h == x {
    } else if h == b {
      OnChainBelow(blocks, blocks[h].prev, x);
      OnChainSelf(blocks, h);
    } else if h == x {
      OnChainBelow(blocks, blocks[h].prev, b);
    } else {
      OnChainStep(blocks, blocks[h].prev, b, x);
    }
  }

  lemma OnChainSelf(blocks: BlockSet, h: Hash)
    requires Linked(blocks) && h in blocks && blocks[h].prev in blocks
    ensures OnChain(blocks, h, blocks[h].prev)
  {}

  lemma {:induction false} OnChainBelow(blocks: BlockSet, h: Hash, x: Hash)
    requires Linked(blocks) && OnChain(blocks, h, x)
    ensures x in blocks && blocks[x].height <= blocks[h].height
    decreases blocks[h].height
  {
    if h != x { OnChainBelow(blocks, blocks[h].prev, x); }
  }

  /** The lowest height that following prevBlock from h meets among the stored blocks. */
  ghost function Bottom(blocks: BlockSet, h: Hash): (n: nat)
    requires Linked(blocks)
    ensures h in blocks ==> n <= blocks[h].height
    decreases if h in blocks then blocks[h].height else 0
  {
    if h !in blocks then 0
    else if blocks[h].prev in blocks then Bottom(blocks, blocks[h].prev)
    else blocks[h].height
  }

  /** The first block that the chain of h shares with the chain of h2, going down. */
  ghost function Join(blocks: BlockSet, h: Hash, h2: Hash): Option<Block>
    requires Linked(blocks)
    decreases if h in blocks then blocks[h].height else 0
  {
    if h !in blocks then None
    else if OnChain(blocks, h2, h) then Some(blocks[h])
    else if blocks[h].prev in blocks then Join(blocks, blocks[h].prev, h2)
    else None
  }

  /** The join is the highest common ancestor. */
  lemma {:induction false} JoinIs(blocks: BlockSet, h: Hash, h2: Hash, x: Hash)
    requires Linked(blocks) && Common(blocks, h, h2, x) && x in blocks && CommonUpTo(blocks, h, h2, blocks[x].height)
    ensures Join(blocks, h, h2) == Some(blocks[x])
    decreases blocks[h].height
  {
    if h != x {
      var p := blocks[h].prev;
      OnChainBelow(blocks, p, x);
      assert !Common(blocks, h, h2, h);
      forall y | Common(blocks, p, h2, y) ensures y in blocks && blocks[y].height <= blocks[x].height {
        assert Common(blocks, h, h2, y);
      }
      JoinIs(blocks, p, h2, x);
    }
  }

  lemma {:induction false} NoJoin(blocks: BlockSet, h: Hash, h2: Hash)
    requires Linked(blocks) && Exhausted(blocks, h, h2)
    ensures Join(blocks, h, h2) == None
    decreases if h in blocks then blocks[h].height else 0
  {
    if h in blocks {
      assert !Common(blocks, h, h2, h);
      if blocks[h].prev in blocks {
        forall y ensures !Common(blocks, blocks[h].prev, h2, y) {
          assert !Common(blocks, h, h2, y);
        }
        NoJoin(blocks, blocks[h].prev, h2);
      }
    }
  }

  /** Every common ancestor is at height n or lower. */
  ghost predicate CommonUpTo(blocks: BlockSet, h: Hash, h2: Hash, n: nat)
    requires Linked(blocks)
  {
    forall x :: Common(blocks, h, h2, x) ==> x in blocks && blocks[x].height <= n
  }

  lemma CommonBelow(blocks: BlockSet, h: Hash, h2: Hash)
    requires Linked(blocks) && h in blocks
    ensures CommonUpTo(blocks, h, h2, blocks[h].height)
  {
    forall x | Common(blocks, h, h2, x) ensures x in blocks && blocks[x].height <= blocks[h].height {
      OnChainBelow(blocks, h, x);
    }
  }

  /** No stored block is on both chains. */
  ghost predicate Exhausted(blocks: BlockSet, h: Hash, h2: Hash)
    requires Linked(blocks)
  {
    forall x :: !Common(blocks, h, h2, x)
  }

  /** The two-pointer walk from a block that is one higher than the last block of another chain.  It
      ends at the highest common ancestor, if there is one among the stored blocks. */
  method FindJoin(blocks: BlockSet, block: Block, last: Block) returns (b: Option<Block>, b2: Option<Block>)
    requires Linked(blocks) && block.hash in blocks && blocks[block.hash] == block && last.hash in blocks && blocks[last.hash] == last
    requires block.height == last.height + 1 && forall h :: h in blocks ==> blocks[h].hash == h
    ensures OnPath(blocks, block.hash, b) && OnPath(blocks, last.hash, b2)
    ensures b.Some? && b2.Some? ==> b == b2 && Common(blocks, block.hash, last.hash, b.value.hash)
    ensures b.Some? && b2.Some? ==> CommonUpTo(blocks, block.hash, last.hash, b.value.height)
    ensures b.None? || b2.None? ==> Exhausted(blocks, block.hash, last.hash)
    ensures b.Some? ==> b.value.height <= last.height
    ensures b.None? || b2.None? ==> (b.None? <==> Bottom(blocks, block.hash) >= Bottom(blocks, last.hash))
    ensures b.Some? && b2.None? ==> b.value.height + 1 == Bottom(blocks, last.hash)
  {
    b, b2 := Some(block), Some(last);
    CommonBelow(blocks, block.hash, last.hash);
    while b.Some? && b2.Some? && b.value.hash != b2.value.hash
      invariant OnPath(blocks, block.hash, b) && OnPath(blocks, last.hash, b2)
      invariant b.Some? && b2.Some? ==> b.value.height == b2.value.height || (b.value == block && b2.value == last)
      invariant b.Some? && b2.Some? ==> CommonUpTo(blocks, block.hash, last.hash, b.value.height)
      invariant b.None? || b2.None? ==> Exhausted(blocks, block.hash, last.hash)
      invariant b.Some? && b2.None? ==> b.value.height <= last.height
      invariant b2.Some? ==> b2.value.height <= last.height
      invariant b.Some? ==> Bottom(blocks, b.value.hash) == Bottom(blocks, block.hash) <= b.value.height
      invariant b2.Some? ==> Bottom(blocks, b2.value.hash) == Bottom(blocks, last.hash) <= b2.value.height
      invariant b.None? ==> b2.Some? && Bottom(blocks, block.hash) >= Bottom(blocks, last.hash)
      invariant b.Some? && b2.None? ==> b.value.height + 1 == Bottom(blocks, last.hash)
      decreases if b.Some? then 1 + b.value.height else 0
    {
      ghost var c, c2 := b.value, b2.value;
      forall x | Common(blocks, block.hash, last.hash, x) ensures BelowBoth(blocks, c, c2, x) {
        OnChainStep(blocks, block.hash, c.hash, x);
        OnChainStep(blocks, last.hash, c2.hash, x);
      }
      PathStep(blocks, block.hash, c);
      PathStep(blocks, last.hash, c2);
      b := Parent(blocks, b.value);
      if b.Some? && b.value.height < b2.value.height { b2 := Parent(blocks, b2.value); }
    }
  }

  /** A common ancestor not yet passed lies strictly below the higher of two different blocks, and
      strictly below both of them if they are level. */
  ghost predicate BelowBoth(blocks: BlockSet, c: Block, c2: Block, x: Hash) {
    && x in blocks
    && (x == c.hash || blocks[x].height != c.height) && (blocks[x].height < c.height ==> c.prev in blocks)
    && (x == c2.hash || blocks[x].height != c2.height) && (blocks[x].height < c2.height ==> c2.prev in blocks)
    && blocks[x].height <= c2.height
  }

  lemma PathStep(blocks: BlockSet, h: Hash, b: Block)
    requires Linked(blocks) && OnPath(blocks, h, Some(b)) && forall x :: x in blocks ==> blocks[x].hash == x
    ensures OnPath(blocks, h, Parent(blocks, b))
  {
    if b.prev in blocks { OnChainParent(blocks, h, b.hash); }
  }

  lemma {:induction false} OnChainParent(blocks: BlockSet, h: Hash, b: Hash)
    requires Linked(blocks) && OnChain(blocks, h, b) && b in blocks && blocks[b].prev in blocks
    ensures OnChain(blocks, h, blocks[b].prev)
    decreases blocks[h].height
  {
    if h != b { OnChainParent(blocks, blocks[h].prev, b); }
  }

  // ---- Heights of transactions after a reorganisation

  /** The height that a transaction gets when the blocks from h down to, but not including, height
      stop are gone through in that order; height if none of them has it. */
  ghost function BranchHeight(blocks: BlockSet, h: Hash, stop: nat, id: Hash, height: nat): nat
    requires Linked(blocks)
    decreases if h in blocks then blocks[h].height else 0, if h in blocks then 1 else 0
  {
    if h !in blocks || blocks[h].height <= stop then height
    else
      var here := if id in blocks[h].txHashes then blocks[h].height else height;
      BranchHeight(blocks, blocks[h].prev, stop, id, here)
  }

  /** x is a block of the new branch that has the transaction. */
  ghost predicate Mines(blocks: BlockSet, h: Hash, stop: nat, id: Hash, x: Hash)
    requires Linked(blocks)
  {
    OnChain(blocks, h, x) && x in blocks && blocks[x].height > stop && id in blocks[x].txHashes
  }

  ghost predicate LowestMine(blocks: BlockSet, h: Hash, stop: nat, id: Hash, x: Hash)
    requires Linked(blocks)
  {
    Mines(blocks, h, stop, id, x) && forall y :: Mines(blocks, h, stop, id, y) ==> blocks[y].height >= blocks[x].height
  }

  /** BranchHeight is the height of the lowest block of the branch that has the transaction, if any. */
  lemma {:induction false} BranchHeightIs(blocks: BlockSet, h: Hash, stop: nat, id: Hash, height: nat)
    requires Linked(blocks)
    ensures (BranchHeight(blocks, h, stop, id, height) == height && forall x :: !Mines(blocks, h, stop, id, x))
         || exists x :: LowestMine(blocks, h, stop, id, x) && blocks[x].height == BranchHeight(blocks, h, stop, id, height)
    decreases if h in blocks then blocks[h].height else 0, if h in blocks then 1 else 0
  {
    if h !in blocks || blocks[h].height <= stop {
      forall x ensures !Mines(blocks, h, stop, id, x) {
        if OnChain(blocks, h, x) { OnChainBelow(blocks, h, x); }
      }
    } else {
      var p := blocks[h].prev;
      var here := if id in blocks[h].txHashes then blocks[h].height else height;
      BranchHeightIs(blocks, p, stop, id, here);
      forall y ensures Mines(blocks, h, stop, id, y) <==> Mines(blocks, p, stop, id, y) || (y == h && id in blocks[h].txHashes) {
        if y == h && OnChain(blocks, p, y) { OnChainBelow(blocks, p, y); }
      }
      if exists x :: LowestMine(blocks, p, stop, id, x) && blocks[x].height == BranchHeight(blocks, p, stop, id, here) {
        var x :| LowestMine(blocks, p, stop, id, x) && blocks[x].height == BranchHeight(blocks, p, stop, id, here);
        OnChainBelow(blocks, p, x);
        assert LowestMine(blocks, h, stop, id, x);
      } else if id in blocks[h].txHashes {
        assert LowestMine(blocks, h, stop, id, h);
      }
    }
  }
}
