/** The chain part of core/bitcoin/BRPeerManager.c on the main network: relayed blocks extend,
    replace, fork, reorganise and prune the stored headers.  Each callback runs under the manager's
    lock, so each is one atomic step. */
module PeerManager {
  import opened Blocks
  import opened ChainModel
  import opened Relay
  import opened Reorg
  import opened Restore
  import opened Difficulty
  import L = Ledger
  import W = Wallet

  class PeerManager {
    var blocks: BlockSet
    var orphans: BlockSet
    var lastBlock: Block
    var lastOrphan: Option<Block>
    var estimatedHeight: nat
    const earliestKeyTime: nat
    const checkpoints: map<nat, Hash>
    const lastCheckpoint: nat
    const wallet: W.Wallet
    ghost const world: World

    function Settings(): Params {
      Params(checkpoints, lastCheckpoint, earliestKeyTime)
    }

    /** The confirmation heights of the listed transactions. */
    ghost function Heights(): map<Hash, nat>
      reads wallet
      requires wallet.Valid()
    {
      HeightsOf(wallet.transactions, wallet.height)
    }

    /** The state that relaying blocks is a function of. */
    ghost function Snapshot(): State
      reads this`blocks, this`orphans, this`lastBlock, this`estimatedHeight, wallet
      requires wallet.Valid()
    {
      State(blocks, orphans, lastBlock, estimatedHeight, Heights())
    }

    lemma HeightsListed()
      requires wallet.Valid()
      ensures forall id :: id in wallet.transactions ==> id in wallet.height
    {}

    ghost predicate OrphansValid()
      reads this`blocks, this`orphans, this`lastBlock
    {
      WaitingReached(world, blocks, lastBlock, orphans)
    }

    ghost predicate Inv()
      reads this`blocks, this`lastBlock
    {
      ChainInv(world, blocks, lastBlock, checkpoints)
    }

    /** BRPeerManagerNew: load the checkpoints, then the saved blocks from their last transition on. */
    constructor (list: seq<Block>, saved: seq<Block>, earliestKeyTime: nat, wallet: W.Wallet, ghost world: World)
      requires Lawful(world) && CheckpointList(world, list)
      requires forall b :: b in saved ==> StoredBlock(world, b)
      ensures Inv() && this.wallet == wallet && this.world == world
      ensures forall c :: c in list ==> c.hash in blocks
      ensures forall tip :: SavedChain(saved, tip) ==> lastBlock == tip && NoneAbove(saved, lastBlock)
      ensures forall t :: Topmost(saved, t) ==> lastBlock in saved && NoneAbove(saved, lastBlock)
      ensures NoneAbove(saved, lastBlock) ==> OrphansValid()
      ensures forall height :: OnFile(world, saved, height) ==> OrphansValid() && OnFile(world, saved, lastBlock.height)
      ensures (forall b :: b in saved ==> b.height % DIFFICULTY_INTERVAL != 0) ==> StartingPoint(list, earliestKeyTime, lastBlock)
      ensures this.earliestKeyTime == earliestKeyTime && lastCheckpoint == list[|list| - 1].height
      ensures AllFrom(list + saved, blocks) && AllFrom(saved, orphans)
      ensures forall n :: n in checkpoints ==> exists c :: c in list && c.height == n && c.hash == checkpoints[n]
    {
      var blocks, checkpoints, last, waiting := Load(list, saved, earliestKeyTime, world);
      this.blocks, this.checkpoints, this.lastBlock, this.orphans := blocks, checkpoints, last, waiting;
      this.lastOrphan, this.estimatedHeight, this.lastCheckpoint := None, 0, list[|list| - 1].height;
      this.earliestKeyTime, this.wallet, this.world := earliestKeyTime, wallet, world;
    }

    /** 2016 steps back from block, which itself need not be stored. */
    method WalkBack(block: Block) returns (b: Option<Block>)
      ensures b == Ancestor(blocks, block.prev, DIFFICULTY_INTERVAL - 1)
    {
      b := Some(block);
      var i := 0;
      while b.Some? && i < DIFFICULTY_INTERVAL
        invariant 0 <= i <= DIFFICULTY_INTERVAL
        invariant i < DIFFICULTY_INTERVAL && b.None? ==> Ancestor(blocks, block.prev, DIFFICULTY_INTERVAL - 1) == None
        invariant i < DIFFICULTY_INTERVAL && b.Some? ==>
          Ancestor(blocks, block.prev, DIFFICULTY_INTERVAL - 1) == Ancestor(blocks, b.value.prev, DIFFICULTY_INTERVAL - 1 - i)
        invariant i == DIFFICULTY_INTERVAL ==> b == Ancestor(blocks, block.prev, DIFFICULTY_INTERVAL - 1)
      {
        b := if b.value.prev in blocks then Some(blocks[b.value.prev]) else None;
        i := i + 1;
      }
    }

    /** Free the blocks before the previous transition, but keep transition blocks. */
    method Prune(h: Hash)
      requires Linked(blocks)
      modifies this`blocks
      ensures Linked(blocks) && blocks == Pruned(old(blocks), h)
    {
      var cur := h;
      while cur in blocks
        invariant Linked(blocks) && Pruned(blocks, cur) == Pruned(old(blocks), h)
        decreases if cur in blocks then blocks[cur].height + 1 else 0
      {
        var b := blocks[cur];
        if b.height % DIFFICULTY_INTERVAL != 0 { blocks := blocks - {cur}; }
        cur := b.prev;
      }
    }

    /** _BRPeerManagerVerifyBlock: besides checking the block it frees old ones. */
    method VerifyBlock(block: Block) returns (r: bool)
      requires Inv() && OrphansValid() && block.prev in blocks && block.height == blocks[block.prev].height + 1
      requires blocks[block.prev].height <= lastBlock.height
      modifies this`blocks
      ensures Inv() && OrphansValid() && r == Verified(old(blocks), checkpoints, block)
      ensures blocks == Cleared(old(blocks), block)
      ensures block.prev in blocks && blocks[block.prev] == old(blocks)[block.prev]
      ensures KeepsRecent(old(blocks), blocks, block.height)
    {
      r := true;
      ghost var was := blocks;
      if block.height % DIFFICULTY_INTERVAL == 0 {
        var b := WalkBack(block);
        if b.None? {
          r := false;
        } else {
          AncestorHeight(blocks, block.prev, DIFFICULTY_INTERVAL - 1);
          PruneBelow(b.value, block.height);
        }
      }
      if r {
        AncestorKept(was, blocks, block.prev, DIFFICULTY_INTERVAL - 1);
        r := MainNetVerifyDifficulty(block);
        if r && block.height in checkpoints && checkpoints[block.height] != block.hash { r := false; }
      }
    }

    method PruneBelow(b: Block, ghost height: nat)
      requires Inv() && b.height + DIFFICULTY_INTERVAL == height <= lastBlock.height + 1 && height % DIFFICULTY_INTERVAL == 0
      requires b.hash in blocks && blocks[b.hash] == b
      modifies this`blocks
      ensures Inv() && blocks == Pruned(old(blocks), b.prev)
      ensures forall h :: h in blocks ==> h in old(blocks) && blocks[h] == old(blocks)[h]
      ensures forall h :: h in old(blocks) && h !in blocks ==> old(blocks)[h].height < b.height
    {
      PrunedIs(blocks, b.prev);
      PruningKeepsInvariant(world, blocks, Pruned(blocks, b.prev), lastBlock, checkpoints);
      Prune(b.prev);
    }

    /** BRMainNetVerifyDifficulty: find the previous transition again and check the target. */
    method MainNetVerifyDifficulty(block: Block) returns (r: bool)
      requires block.prev in blocks && forall h :: h in blocks ==> blocks[h].target < 0x1_0000_0000
      ensures var b := Ancestor(blocks, block.prev, DIFFICULTY_INTERVAL - 1);
         r == Acceptable(block, Some(blocks[block.prev]), if block.height % DIFFICULTY_INTERVAL == 0 && b.Some? then b.value.timestamp else 0)
    {
      var b := None;
      if block.height % DIFFICULTY_INTERVAL == 0 { b := WalkBack(block); }
      var previous := if block.prev in blocks then Some(blocks[block.prev]) else None;
      r := VerifyDifficulty(block, previous, if b.Some? then b.value.timestamp else 0);
    }

    // ---- What a verified block does

    /** The transactions that a block of the main chain proves get its height. */
    method Confirm(block: Block, txTime: nat, now: nat)
      requires wallet.Valid() && block.height < BLOCK_UNKNOWN_HEIGHT
      modifies wallet
      ensures wallet.Valid() && SameTransactions(old(wallet.transactions), wallet.transactions)
      ensures Confirmed(block, old(Heights()), Heights())
    {
      hide W.Wallet.Valid, W.Swept, W.Updated, W.SweptInOrder, W.Stale, W.NotLower, W.Wallet.Tallied;
      HeightsListed();
      if |block.txHashes| > 0 {
        var hashes := wallet.UpdateTransactions(block.txHashes, block.height, txTime, now);
        HeightsListed();
      }
    }

    /** The block extends the main chain. */
    method ExtendChain(block: Block, txTime: nat, now: nat)
      requires Inv() && wallet.Valid() && Genuine(world, block)
      requires block.prev == lastBlock.hash && block.height == lastBlock.height + 1
      modifies this`blocks, this`lastBlock, wallet
      ensures Inv() && lastBlock == block && blocks == old(blocks)[block.hash := block]
      ensures wallet.Valid() && SameTransactions(old(wallet.transactions), wallet.transactions)
      ensures Confirmed(block, old(Heights()), Heights())
      ensures SameHeights(Extended, old(blocks), old(lastBlock), block, old(Heights()), Heights())
    {
      hide W.Wallet.Valid, SameTransactions, Heights, Confirmed, SameHeights;
      HeightFollows(world, blocks, block);
      StoringKeepsInvariant(world, blocks, lastBlock, checkpoints, block, block);
      ghost var was, last, heights := blocks, lastBlock, Heights();
      blocks := blocks[block.hash := block];
      lastBlock := block;
      Confirm(block, txTime, now);
      ConfirmedIs(Extended, was, last, block, heights, Heights());
    }

    /** Walk down the main chain to the given height. */
    method WalkMain(height: nat) returns (b: Option<Block>)
      requires Inv()
      ensures b.Some? <==> Bottom(blocks, lastBlock.hash) <= height
      ensures b.Some? ==> b.value.hash in blocks && blocks[b.value.hash] == b.value && b.value.height <= height
      ensures height >= lastBlock.height ==> b == Some(lastBlock)
      ensures b.Some? ==> OnChain(blocks, lastBlock.hash, b.value.hash)
      ensures b.Some? ==> forall x :: OnChain(blocks, lastBlock.hash, x) && x in blocks && blocks[x].height == height ==> x == b.value.hash
    {
      hide Highest, CheckpointsValid;
      b := Some(lastBlock);
      while b.Some? && b.value.height > height
        invariant b.Some? ==> b.value.hash in blocks && blocks[b.value.hash] == b.value && OnChain(blocks, lastBlock.hash, b.value.hash)
        invariant height >= lastBlock.height ==> b == Some(lastBlock)
        invariant height < lastBlock.height && b.Some? ==> b.value.height >= height
        invariant b.Some? ==> Bottom(blocks, b.value.hash) == Bottom(blocks, lastBlock.hash) <= b.value.height
        invariant b.None? ==> Bottom(blocks, lastBlock.hash) > height
        decreases if b.Some? then 1 + b.value.height else 0
      {
        PathStep(blocks, lastBlock.hash, b.value);
        b := Parent(blocks, b.value);
      }
      if b.Some? {
        forall x | OnChain(blocks, lastBlock.hash, x) && x in blocks && blocks[x].height == height ensures x == b.value.hash {
          OnChainBelow(blocks, lastBlock.hash, x);
          OnChainStep(blocks, lastBlock.hash, b.value.hash, x);
        }
      }
    }

    /** The block is known already, perhaps only as a header. */
    method RefreshBlock(block: Block, txTime: nat, now: nat) returns (ok: bool)
      requires Inv() && wallet.Valid() && Genuine(world, block) && block.hash in blocks
      requires block.prev in blocks && blocks[block.prev].height <= lastBlock.height && block.height == blocks[block.prev].height + 1
      modifies this`blocks, this`lastBlock, wallet
      ensures ok <==> Bottom(old(blocks), old(lastBlock).hash) <= block.height
      ensures wallet.Valid() && SameTransactions(old(wallet.transactions), wallet.transactions)
      ensures ok ==> Inv() && lastBlock == if block.hash == old(lastBlock).hash then block else old(lastBlock)
      ensures lastBlock.height == old(lastBlock).height && block.height == old(blocks)[block.hash].height
      ensures ok ==> blocks == old(blocks)[block.hash := block]
      ensures SameHeights(if ok then Known else Aborted, old(blocks), old(lastBlock), block, old(Heights()), Heights())
    {
      hide W.Wallet.Valid, Heights, Confirmed, SameHeights, Stored, Linked, Highest, Retained, CheckpointsValid;
      hide Genuine;
      ghost var was, last, heights := blocks, lastBlock, Heights();
      RefreshKeepsInvariant(world, blocks, lastBlock, checkpoints, block);
      var b := WalkMain(block.height);
      ok := b.Some?;
      if !ok {
        HeightsStay(Aborted, was, last, block, heights);
      } else if b.value.hash == block.hash {
        Confirm(block, txTime, now);
        if block.height == lastBlock.height { lastBlock := block; }
        blocks := blocks[block.hash := block];
        ConfirmedIs(Known, was, last, block, heights, Heights());
      } else {
        blocks := blocks[block.hash := block];
        HeightsStay(Known, was, last, block, heights);
      }
    }

    /** A stored fork has become longer than the main chain: find where it joins, un-confirm the
        wallet's transactions above, and confirm those of the new branch. */
    method Reorganise(block: Block, now: nat) returns (ok: bool)
      requires Lawful(world) && Stored(world, blocks) && Linked(blocks) && wallet.Valid()
      requires block.hash in blocks && blocks[block.hash] == block && block.height == lastBlock.height + 1
      requires lastBlock.hash in blocks && blocks[lastBlock.hash] == lastBlock
      modifies wallet
      ensures wallet.Valid() && SameTransactions(old(wallet.transactions), wallet.transactions)
      ensures ok <==> !Stuck(blocks, block.hash, lastBlock.hash)
      ensures forall id :: id in wallet.transactions ==>
        wallet.height[id] == if ok then NewHeight(blocks, block.hash, lastBlock.hash, id, old(wallet.height)[id])
                             else old(wallet.height)[id]
    {
      hide W.Wallet.Valid, W.Swept, W.Updated, W.SweptInOrder, W.Stale, W.NotLower, W.Wallet.Tallied;
      var b, b2 := FindJoin(blocks, block, lastBlock);
      if b.Some? && b2.Some? {
        JoinIs(blocks, block.hash, lastBlock.hash, b.value.hash);
      } else {
        NoJoin(blocks, block.hash, lastBlock.hash);
      }
      ok := b.Some?;
      if ok {
        var updated := wallet.SetTxUnconfirmedAfter(b.value.height, now);
        if b2.Some? { ConfirmBranch(block, b2.value.height, now); }
      }
    }

    /** Set the heights of the transactions in the blocks from block down to height stop. */
    method ConfirmBranch(block: Block, stop: nat, now: nat)
      requires Stored(world, blocks) && Linked(blocks) && wallet.Valid() && block.hash in blocks && blocks[block.hash] == block
      modifies wallet
      ensures wallet.Valid() && SameTransactions(old(wallet.transactions), wallet.transactions)
      ensures forall id :: id in wallet.transactions ==>
        wallet.height[id] == BranchHeight(blocks, block.hash, stop, id, old(wallet.height)[id])
    {
      hide W.Swept, W.Updated, W.SweptInOrder, W.Stale, W.NotLower, W.Wallet.Tallied;
      var b := Some(block);
      while b.Some? && b.value.height > stop
        invariant b.Some? ==> b.value.hash in blocks && blocks[b.value.hash] == b.value
        invariant wallet.Valid() && SameTransactions(old(wallet.transactions), wallet.transactions)
        invariant forall id :: id in wallet.transactions ==>
          BranchHeight(blocks, block.hash, stop, id, old(wallet.height)[id])
            == if b.Some? then BranchHeight(blocks, b.value.hash, stop, id, wallet.height[id]) else wallet.height[id]
        decreases if b.Some? then 1 + b.value.height else 0
      {
        var c := b.value;
        b := Parent(blocks, c);
        if |c.txHashes| > 0 {
          var timestamp := if b.Some? then c.timestamp / 2 + b.value.timestamp / 2 else c.timestamp;
          var hashes := wallet.UpdateTransactions(c.txHashes, c.height, timestamp, now);
        }
      }
    }

    // ---- One relayed block

    /** Everything that holds between two callbacks. */
    ghost predicate Ready()
      reads this`blocks, this`orphans, this`lastBlock, wallet
    {
      Inv() && OrphansValid() && wallet.Valid()
    }

    /** _peerRelayedBlock for one block; next is the orphan that was waiting for it, if any. */
    method RelayOne(relayed: Block, now: nat, filterReady: bool) returns (outcome: Outcome, saved: seq<Block>, next: Option<Block>)
      requires Ready() && Genuine(world, relayed) && ReachedParent(blocks, lastBlock, relayed.prev)
      requires relayed.prev !in blocks ==> relayed.height == BLOCK_UNKNOWN_HEIGHT
      modifies this`blocks, this`orphans, this`lastBlock, this`lastOrphan, this`estimatedHeight, wallet
      ensures wallet.Valid() && SameTransactions(old(wallet.transactions), wallet.transactions)
      ensures outcome == Judged(Settings(), old(Snapshot()), relayed, now, filterReady)
      ensures outcome != Aborted ==> Ready() && Snapshot() == Relayed(Settings(), old(Snapshot()), relayed, now, filterReady)
      ensures next == Follower(Settings(), old(Snapshot()), relayed, now, filterReady)
      ensures lastBlock.height >= old(lastBlock).height
      ensures saved != [] ==> SavedChain(saved, lastBlock) && forall b :: b in saved ==> StoredBlock(world, b)
      ensures saved == Handed(Settings(), old(Snapshot()), relayed, now, filterReady)
      ensures outcome == Reorganised ==> AllReconfirmed(blocks, relayed.hash, old(lastBlock).hash, old(Heights()), Heights())
      ensures next.Some? ==> next.value.prev in blocks && |orphans| < |old(orphans)|
      ensures next.Some? ==> Genuine(world, next.value) && ReachedParent(blocks, lastBlock, next.value.prev)
    {
      hide AllReconfirmed, Verified, Cleared, StoreOutcome, StoredHeight, SavedChain, Inv, OrphansValid;
      saved, next := [], None;
      if relayed.totalTx == 0 && relayed.timestamp + ONE_WEEK > earliestKeyTime + TWO_HOURS {
        return Ignored, [], None;
      }
      if !filterReady { return Ignored, [], None; }
      if relayed.prev !in blocks {
        outcome := KeepOrphan(relayed, now);
        return outcome, [], None;
      }
      outcome, saved, next := RelayLinked(relayed, now, filterReady);
    }

    /** A wanted block whose parent is stored: verify it, store it, and see what follows. */
    method RelayLinked(relayed: Block, now: nat, ghost filterReady: bool) returns (outcome: Outcome, saved: seq<Block>, next: Option<Block>)
      requires Ready() && Genuine(world, relayed) && ReachedParent(blocks, lastBlock, relayed.prev)
      requires relayed.prev in blocks && !Unwanted(Settings(), relayed, filterReady)
      modifies this`blocks, this`orphans, this`lastBlock, this`lastOrphan, this`estimatedHeight, wallet
      ensures wallet.Valid() && SameTransactions(old(wallet.transactions), wallet.transactions)
      ensures outcome == Judged(Settings(), old(Snapshot()), relayed, now, filterReady)
      ensures outcome != Aborted ==> Ready() && Snapshot() == Relayed(Settings(), old(Snapshot()), relayed, now, filterReady)
      ensures next == Follower(Settings(), old(Snapshot()), relayed, now, filterReady)
      ensures lastBlock.height >= old(lastBlock).height
      ensures saved != [] ==> SavedChain(saved, lastBlock) && forall b :: b in saved ==> StoredBlock(world, b)
      ensures saved == Handed(Settings(), old(Snapshot()), relayed, now, filterReady)
      ensures outcome == Reorganised ==> AllReconfirmed(blocks, relayed.hash, old(lastBlock).hash, old(Heights()), Heights())
      ensures next.Some? ==> next.value.prev in blocks && |orphans| < |old(orphans)|
      ensures next.Some? ==> Genuine(world, next.value) && ReachedParent(blocks, lastBlock, next.value.prev)
    {
      hide AllReconfirmed, SaveCount, KeepsRecent, StoredBlock, Stored, WaitingReached, Genuine, W.Wallet.Valid;
      hide Verified;
      hide Cleared, StoreOutcome, StoredHeight, SameHeights, Heights, Judged, Relayed, SavedChain, Linked;
      hide Highest, Retained, CheckpointsValid, Rooted;
      saved, next := [], None;
      ghost var was := Snapshot();
      var prev := blocks[relayed.prev];
      var block := Placed(blocks, relayed);
      PlacedGenuine(world, blocks, relayed);
      var ok := VerifyBlock(block);
      ghost var cleared := blocks;
      if !ok {
        RelayedIs(Settings(), was, relayed, now, filterReady, block, cleared, Rejected, Snapshot(), []);
        return Rejected, [], None;
      }
      outcome, saved, next := StoreAndFinish(block, block.timestamp / 2 + prev.timestamp / 2, now);
      RelayedIs(Settings(), was, relayed, now, filterReady, block, cleared, outcome, Snapshot(), saved);
      if outcome == Reorganised { ReorganisedHeights(Settings(), was, relayed, now, filterReady); }
    }

    /** Store a verified block and, unless the code fails or the block is an old fork, finish. */
    method StoreAndFinish(block: Block, txTime: nat, now: nat) returns (outcome: Outcome, saved: seq<Block>, next: Option<Block>)
      requires Ready() && Genuine(world, block)
      requires block.prev in blocks && blocks[block.prev].height <= lastBlock.height && block.height == blocks[block.prev].height + 1
      modifies this`blocks, this`orphans, this`lastBlock, this`lastOrphan, this`estimatedHeight, wallet
      ensures wallet.Valid() && SameTransactions(old(wallet.transactions), wallet.transactions)
      ensures outcome == StoreOutcome(old(blocks), old(lastBlock), lastCheckpoint, block)
      ensures outcome in {Extended, Known, OldFork, Forked, Reorganised, Aborted}
      ensures (outcome != Aborted ==> Ready()) && lastBlock.height >= old(lastBlock).height
      ensures IsStored(outcome) ==>
        && blocks == old(blocks)[block.hash := block] && orphans == old(orphans) - {block.hash}
        && lastBlock == (if outcome == Forked || (outcome == Known && block.hash != old(lastBlock).hash) then old(lastBlock) else block)
      ensures outcome == OldFork ==> Snapshot() == old(Snapshot())
      ensures SameHeights(outcome, old(blocks), old(lastBlock), block, old(Heights()), Heights())
      ensures saved != [] ==> SavedChain(saved, lastBlock) && forall b :: b in saved ==> StoredBlock(world, b)
      ensures saved == if IsStored(outcome) then SavedBlocks(blocks, block, outcome, old(estimatedHeight)) else []
      ensures IsStored(outcome) ==> estimatedHeight == if block.height > old(estimatedHeight) then block.height else old(estimatedHeight)
      ensures next == if IsStored(outcome) && block.hash in old(orphans) then Some(old(orphans)[block.hash]) else None
      ensures next.Some? ==> next.value.prev in blocks && |orphans| < |old(orphans)|
      ensures next.Some? ==> Genuine(world, next.value) && ReachedParent(blocks, lastBlock, next.value.prev)
    {
      hide W.Wallet.Valid, SameTransactions, StoreOutcome, StoredHeight, SameHeights, Heights, SavedChain;
      hide SaveCount, ChainInv, WaitingReached, ReachedParent, Genuine;
      saved, next := [], None;
      outcome := Store(block, txTime, now);
      if IsStored(outcome) { saved, next := Finish(block, outcome); }
    }

    /** After a block was stored: collect what to save, and take out the orphan waiting for it. */
    method Finish(block: Block, outcome: Outcome) returns (saved: seq<Block>, next: Option<Block>)
      requires Inv() && OrphansValid() && block.hash in blocks && blocks[block.hash] == block && block.height <= lastBlock.height + 1
      requires outcome in {Extended, Known, Forked, Reorganised} && (outcome in {Extended, Reorganised} ==> block == lastBlock)
      modifies this`orphans, this`estimatedHeight
      ensures OrphansValid()
      ensures saved != [] ==> SavedChain(saved, lastBlock) && forall b :: b in saved ==> StoredBlock(world, b)
      ensures saved == SavedBlocks(blocks, block, outcome, old(estimatedHeight))
      ensures orphans == old(orphans) - {block.hash}
      ensures next == if block.hash in old(orphans) then Some(old(orphans)[block.hash]) else None
      ensures next.Some? ==> next.value.prev == block.hash && |orphans| < |old(orphans)|
      ensures next.Some? ==> Genuine(world, next.value) && ReachedParent(blocks, lastBlock, next.value.prev)
      ensures estimatedHeight == if block.height > old(estimatedHeight) then block.height else old(estimatedHeight)
    {
      hide ChainInv, SavedChain, SaveCount;
      saved := Save(block, outcome);
      if block.height > estimatedHeight { estimatedHeight := block.height; }
      next := TakeOrphan(block);
    }

    method Save(block: Block, outcome: Outcome) returns (saved: seq<Block>)
      requires Inv() && block.hash in blocks && blocks[block.hash] == block && (outcome in {Extended, Reorganised} ==> block == lastBlock)
      ensures saved != [] ==> SavedChain(saved, block) && block == lastBlock && forall b :: b in saved ==> StoredBlock(world, b)
      ensures saved == SavedBlocks(blocks, block, outcome, estimatedHeight)
    {
      hide StoredBlock, Linked, Highest, CheckpointsValid;
      saved := [];
      var saveCount := SaveCount(outcome, block.height, estimatedHeight);
      if saveCount > 0 { saved := CollectSave(blocks, block, saveCount); }
    }

    method TakeOrphan(block: Block) returns (next: Option<Block>)
      requires Inv() && OrphansValid() && block.hash in blocks && blocks[block.hash] == block
      modifies this`orphans
      ensures OrphansValid() && orphans == old(orphans) - {block.hash}
      ensures next == if block.hash in old(orphans) then Some(old(orphans)[block.hash]) else None
      ensures next.Some? ==> next.value.prev == block.hash && |orphans| < |old(orphans)|
      ensures next.Some? ==> Genuine(world, next.value) && ReachedParent(blocks, lastBlock, next.value.prev)
    {
      hide Linked, Highest, Retained, CheckpointsValid, Rooted, Genuine, ReachedParent;
      next := None;
      assert block.hash != ZERO;
      if block.hash in orphans {
        next := Some(orphans[block.hash]);
        Fewer(orphans, block.hash);
        orphans := orphans - {block.hash};
      }
    }

    /** A block whose parent is unknown waits for it, unless it is old. */
    method KeepOrphan(block: Block, now: nat) returns (outcome: Outcome)
      requires Ready() && Genuine(world, block) && block.prev !in blocks
      modifies this`orphans, this`lastOrphan
      ensures Ready() && outcome == if block.timestamp + ONE_WEEK < now then Ignored else Orphaned
      ensures orphans == if outcome == Ignored then old(orphans) else old(orphans)[block.prev := block]
    {
      if block.timestamp + ONE_WEEK < now {
        outcome := Ignored;
      } else {
        orphans := orphans[block.prev := block];
        lastOrphan := Some(block);
        outcome := Orphaned;
      }
    }

    /** The branches for a verified block. */
    method Store(block: Block, txTime: nat, now: nat) returns (outcome: Outcome)
      requires Ready() && Genuine(world, block)
      requires block.prev in blocks && blocks[block.prev].height <= lastBlock.height && block.height == blocks[block.prev].height + 1
      modifies this`blocks, this`lastBlock, this`lastOrphan, wallet
      ensures outcome == StoreOutcome(old(blocks), old(lastBlock), lastCheckpoint, block)
      ensures outcome in {Extended, Known, OldFork, Forked, Reorganised, Aborted}
      ensures wallet.Valid() && SameTransactions(old(wallet.transactions), wallet.transactions)
      ensures (outcome != Aborted ==> Ready()) && lastBlock.height >= old(lastBlock).height
      ensures outcome in {Extended, Reorganised} ==> lastBlock == block && block.height == old(lastBlock).height + 1
      ensures outcome in {Forked, OldFork} ==> lastBlock == old(lastBlock)
      ensures outcome == Known ==> lastBlock == if block.hash == old(lastBlock).hash then block else old(lastBlock)
      ensures IsStored(outcome) ==> blocks == old(blocks)[block.hash := block]
      ensures outcome == OldFork ==> blocks == old(blocks) && Heights() == old(Heights())
      ensures SameHeights(outcome, old(blocks), old(lastBlock), block, old(Heights()), Heights())
    {
      hide W.Wallet.Valid, SameHeights, HeightsOf, StoredHeight, Stored, Linked, Highest, Retained;
      hide CheckpointsValid, WaitingReached, Genuine, Stuck, Bottom;
      HeightsStay(OldFork, blocks, lastBlock, block, Heights());
      ghost var was, last := blocks, lastBlock;
      if block.prev == lastBlock.hash {
        ExtendChain(block, txTime, now);
        WaitingStays(world, was, last, orphans, block, lastBlock);
        outcome := Extended;
      } else if block.hash in blocks {
        var ok := RefreshBlock(block, txTime, now);
        if ok { WaitingStays(world, was, last, orphans, block, lastBlock); }
        outcome := if ok then Known else Aborted;
      } else if block.height <= lastCheckpoint {
        outcome := OldFork;
      } else {
        outcome := StoreFork(block, now);
      }
    }

    method StoreFork(block: Block, now: nat) returns (outcome: Outcome)
      requires Ready() && Genuine(world, block) && block.hash !in blocks && block.prev != lastBlock.hash && block.height > lastCheckpoint
      requires block.prev in blocks && blocks[block.prev].height <= lastBlock.height && block.height == blocks[block.prev].height + 1
      modifies this`blocks, this`lastBlock, wallet
      ensures outcome == StoreOutcome(old(blocks), old(lastBlock), lastCheckpoint, block)
      ensures wallet.Valid() && SameTransactions(old(wallet.transactions), wallet.transactions)
      ensures outcome != Aborted ==> Ready() && blocks == old(blocks)[block.hash := block]
      ensures outcome in {Forked, Aborted} ==> lastBlock == old(lastBlock)
      ensures outcome == Reorganised ==> lastBlock == block && block.height == old(lastBlock).height + 1
      ensures SameHeights(outcome, old(blocks), old(lastBlock), block, old(Heights()), Heights())
    {
      hide W.Wallet.Valid, NewHeight, SameHeights, HeightsOf, StoredBlock, Highest, Retained, CheckpointsValid, Stuck;
      HeightsListed();
      HeightFollows(world, blocks, block);
      StoringKeepsInvariant(world, blocks, lastBlock, checkpoints, block, if block.height > lastBlock.height then block else lastBlock);
      blocks := blocks[block.hash := block];
      if block.height > lastBlock.height {
        var ok := Reorganise(block, now);
        outcome := if ok then Reorganised else Aborted;
        if ok { lastBlock := block; }
      } else {
        outcome := Forked;
      }
      HeightsListed();
      HeightsChange(outcome, old(blocks), old(lastBlock), block, old(wallet.transactions), old(wallet.height), wallet.transactions, wallet.height);
    }

    /** A relayed block, followed by the orphans that were waiting for it. */
    method RelayBlock(relayed: Block, now: nat, filterReady: bool) returns (aborted: bool, saves: seq<seq<Block>>)
      requires Ready() && Genuine(world, relayed) && ReachedParent(blocks, lastBlock, relayed.prev)
      requires relayed.prev !in blocks ==> relayed.height == BLOCK_UNKNOWN_HEIGHT
      modifies this`blocks, this`orphans, this`lastBlock, this`lastOrphan, this`estimatedHeight, wallet
      ensures wallet.Valid() && SameTransactions(old(wallet.transactions), wallet.transactions)
      ensures RunsTo(Settings(), old(Snapshot()), relayed, now, filterReady, saves, Snapshot(), aborted)
      ensures (!aborted ==> Ready()) && lastBlock.height >= old(lastBlock).height
      ensures forall file :: OnFile(world, file, old(lastBlock).height) ==> OnFile(world, KeptAll(file, saves), lastBlock.height)
      decreases |orphans|
    {
      hide Judged, Relayed, Follower, Handed, RunsTo, Batch, KeptAll, OnFile, SavedChain, StoredBlock, Stored;
      hide Linked, Highest, Retained, CheckpointsValid, WaitingReached, Genuine, ReachedParent, W.Wallet.Valid;
      ghost var was, height := Snapshot(), lastBlock.height;
      var outcome, saved, next := RelayOne(relayed, now, filterReady);
      FileKept(world, saved, height, lastBlock);
      aborted, saves := outcome == Aborted, Batch(saved);
      if aborted || next.None? {
        RunStops(Settings(), was, relayed, now, filterReady, Snapshot());
      } else {
        var more;
        aborted, more := RelayBlock(next.value, now, filterReady);
        RunGoesOn(Settings(), was, relayed, now, filterReady, more, Snapshot(), aborted);
        saves := Batch(saved) + more;
        forall file | OnFile(world, file, height) ensures OnFile(world, KeptAll(file, saves), lastBlock.height) {
          KeptSplit(file, saved, more);
        }
      }
    }
  }

  // ---- A run that fails an assertion of the code

  const EXAMPLE_CHECKPOINT := Block(1, ZERO, 0, 0, 0x1d00ffff, 1, [])
  const EXAMPLE_TIP := Block(8065, 8063, 4032, 0, 0x1d00ffff, 1, [])
  const EXAMPLE_FORK := Block(2, 1, BLOCK_UNKNOWN_HEIGHT, 0, 0x1d00ffff, 1, [])

  /** Two chains above block 1: the odd hashes, and the even ones. */
  ghost function ExampleWorld(): World {
    World((h: Hash) => if h < 2 then ZERO else if h == 2 then 1 else h - 2, (h: Hash) => if h == ZERO then -1 else h / 2)
  }

  lemma ExampleIsLawful()
    ensures var w := ExampleWorld();
         && Lawful(w) && CheckpointList(w, [EXAMPLE_CHECKPOINT]) && StoredBlock(w, EXAMPLE_TIP) && Genuine(w, EXAMPLE_FORK)
    ensures SavedChain([EXAMPLE_TIP], EXAMPLE_TIP)
  {}

  method ExampleManager(now: nat) returns (m: PeerManager)
    ensures fresh(m) && fresh(m.wallet) && m.Ready() && m.world == ExampleWorld()
    ensures m.blocks == map[1 := EXAMPLE_CHECKPOINT, 8065 := EXAMPLE_TIP] && m.lastBlock == EXAMPLE_TIP
    ensures 2 !in m.orphans && 1 !in m.checkpoints && m.lastCheckpoint == 0
  {
    hide W.Wallet.Valid, CheckpointList, SavedChain, Lawful, Highest, Retained, CheckpointsValid, Rooted;
    var derive: (bool, nat) -> Option<nat> := (internal, n) => None;
    var wallet := new W.Wallet([], derive, (h: Hash) => h, now);
    ExampleIsLawful();
    var list, saved := [EXAMPLE_CHECKPOINT], [EXAMPLE_TIP];
    assert forall b :: b in saved ==> b == EXAMPLE_TIP;
    m := new PeerManager(list, saved, 0, wallet, ExampleWorld());
    assert EXAMPLE_CHECKPOINT in list && m.lastBlock == EXAMPLE_TIP;
    ExampleLoaded(list, saved, m.blocks, m.checkpoints);
  }

  /** A checkpoint at height 0, a saved tip at height 4032 and a block on a fork at height 1, relayed
      twice: the second time the code fails. */
  method AbortExample(now: nat) returns (first: bool, second: bool)
    ensures !first && second
  {
    var m := ExampleManager(now);
    ExampleIsLawful();
    ExampleBottom(m.blocks);
    hide Judged, Relayed, Follower, Bottom, ChainInv, WaitingReached, W.Wallet.Valid, SameTransactions, KeptAll, OnFile;
    LateForkTwice(m.Settings(), m.Snapshot(), EXAMPLE_FORK, now);
    var saves;
    first, saves := m.RelayBlock(EXAMPLE_FORK, now, true);
    second, saves := m.RelayBlock(EXAMPLE_FORK, now, true);
  }

  lemma ExampleBottom(blocks: BlockSet)
    requires blocks == map[1 := EXAMPLE_CHECKPOINT, 8065 := EXAMPLE_TIP]
    ensures Linked(blocks) && Bottom(blocks, 8065) == 4032 && Linked(blocks[2 := EXAMPLE_FORK.(height := 1)])
  {}

  lemma ExampleLoaded(list: seq<Block>, saved: seq<Block>, blocks: BlockSet, checkpoints: map<nat, Hash>)
    requires list == [EXAMPLE_CHECKPOINT] && saved == [EXAMPLE_TIP] && ChainInv(ExampleWorld(), blocks, EXAMPLE_TIP, checkpoints)
    requires AllFrom(list + saved, blocks) && EXAMPLE_CHECKPOINT.hash in blocks
    requires forall n :: n in checkpoints ==> exists c :: c in list && c.height == n && c.hash == checkpoints[n]
    ensures blocks == map[EXAMPLE_CHECKPOINT.hash := EXAMPLE_CHECKPOINT, EXAMPLE_TIP.hash := EXAMPLE_TIP]
    ensures checkpoints.Keys <= {0}
  {
    forall h | h in blocks ensures (h == 1 && blocks[h] == EXAMPLE_CHECKPOINT) || (h == 8065 && blocks[h] == EXAMPLE_TIP) {
      assert blocks[h] in list + saved;
    }
  }

  // ---- Reorganisations that find no join

  const CONTRADICTED := Block(4032, ZERO, 2016, 0, 0x1d00ffff, 1, [])
  const SAVED_RIVAL := Block(4033, 4031, 2016, 0, 0x1d00ffff, 1, [])
  const ABOVE_CHECKPOINT := Block(4034, 4032, BLOCK_UNKNOWN_HEIGHT, 0, 0x1d00ffff, 1, [])

  /** A saved tip that contradicts a checkpoint, and then a block above that checkpoint: the walk runs out
      on the side of the fork, and the code fails. */
  method StuckExample(now: nat) returns (aborted: bool)
    ensures aborted
  {
    var derive: (bool, nat) -> Option<nat> := (internal, n) => None;
    var wallet := new W.Wallet([], derive, (h: Hash) => h, now);
    var list, saved := [CONTRADICTED], [SAVED_RIVAL];
    StuckSetting(list, saved);
    hide W.Wallet.Valid, CheckpointList, SavedChain, OnFile, Topmost, Lawful, Highest, Retained;
    hide CheckpointsValid, Rooted, Judged;
    var m := new PeerManager(list, saved, 0, wallet, ExampleWorld());
    StuckLoaded(list, saved, m.blocks, m.lastBlock, m.checkpoints);
    StuckJudged(m.Settings(), m.Snapshot(), now);
    var saves;
    aborted, saves := m.RelayBlock(ABOVE_CHECKPOINT, now, true);
  }

  lemma StuckSetting(list: seq<Block>, saved: seq<Block>)
    requires list == [CONTRADICTED] && saved == [SAVED_RIVAL]
    ensures var w := ExampleWorld();
         && Lawful(w) && CheckpointList(w, list) && (forall b :: b in saved ==> StoredBlock(w, b)) && Genuine(w, ABOVE_CHECKPOINT)
    ensures SavedChain(saved, SAVED_RIVAL)
  {}

  lemma StuckLoaded(list: seq<Block>, saved: seq<Block>, blocks: BlockSet, last: Block, checkpoints: map<nat, Hash>)
    requires list == [CONTRADICTED] && saved == [SAVED_RIVAL] && ChainInv(ExampleWorld(), blocks, last, checkpoints) && last == SAVED_RIVAL
    requires AllFrom(list + saved, blocks) && CONTRADICTED.hash in blocks
    requires forall n :: n in checkpoints ==> exists c :: c in list && c.height == n && c.hash == checkpoints[n]
    ensures blocks == map[CONTRADICTED.hash := CONTRADICTED, SAVED_RIVAL.hash := SAVED_RIVAL]
    ensures checkpoints.Keys <= {2016}
  {
    forall h | h in blocks ensures (h == 4032 && blocks[h] == CONTRADICTED) || (h == 4033 && blocks[h] == SAVED_RIVAL) {
      assert blocks[h] in list + saved;
    }
  }

  lemma StuckJudged(p: Params, s: State, now: nat)
    requires s.blocks == map[CONTRADICTED.hash := CONTRADICTED, SAVED_RIVAL.hash := SAVED_RIVAL] && s.last == SAVED_RIVAL
    requires p.lastCheckpoint == 2016 && p.checkpoints.Keys <= {2016}
    ensures Linked(s.blocks) && Judged(p, s, ABOVE_CHECKPOINT, now, true) == Aborted
  {
    var block := Placed(s.blocks, ABOVE_CHECKPOINT);
    var after := s.blocks[block.hash := block];
    assert Linked(after) && after[4034].prev == 4032 && after[4033].prev == 4031;
    RunsOut(after, 4034, 4033);
  }

  /** A chain of two blocks and a chain of one: the lowest blocks are the second of the one and the other. */
  lemma RunsOut(blocks: BlockSet, tip: Hash, main: Hash)
    requires Linked(blocks) && tip in blocks && main in blocks && tip != main && blocks[tip].prev in blocks && blocks[tip].prev != main
    requires blocks[blocks[tip].prev].prev !in blocks && blocks[main].prev !in blocks
    ensures Join(blocks, tip, main) == None
    ensures Bottom(blocks, tip) == blocks[tip].height - 1 && Bottom(blocks, main) == blocks[main].height
  {
    var root := blocks[tip].prev;
    assert !OnChain(blocks, main, tip) && !OnChain(blocks, main, root);
    assert Join(blocks, root, main) == None && Bottom(blocks, root) == blocks[root].height;
  }

  /** The blocks of the two chains; one of them carries a transaction. */
  ghost function ExampleBlock(h: Hash): Block {
    Block(h, ExampleWorld().parent(h), h / 2, 0, 0x1d00ffff, 1, if h == 4034 then [7] else [])
  }

  /** The checkpoint, the even chain up to height 2016, and a saved tip on the odd chain. */
  ghost function ForkedBlocks(): BlockSet {
    map h: Hash | 1 <= h <= 4033 && (h == 1 || h == 4033 || h % 2 == 0) :: ExampleBlock(h)
  }

  /** A state that satisfies the invariant, in which a longer fork takes over without a stored join: its
      transactions stay unconfirmed, although its blocks are now the main chain. */
  lemma NoJoinExample()
    ensures var blocks, last, block := ForkedBlocks(), ExampleBlock(4033), ExampleBlock(4034);
         var after := blocks[block.hash := block];
         && ChainInv(ExampleWorld(), blocks, last, map[0 := 1]) && 4032 in blocks && block == Placed(blocks, block)
         && StoreOutcome(blocks, last, 0, block) == Reorganised
         && ChainInv(ExampleWorld(), after, block, map[0 := 1])
         && Join(after, block.hash, last.hash) == None && Bottom(after, block.hash) == 0
         && 7 in block.txHashes && StoredHeight(Reorganised, blocks, last, block, 7, L.TX_UNCONFIRMED) == L.TX_UNCONFIRMED
  {
    hide ForkedBlocks, ExampleWorld, Lawful, Stored, Linked, Highest, Retained, CheckpointsValid;
    var blocks, last, block := ForkedBlocks(), ExampleBlock(4033), ExampleBlock(4034);
    var after := blocks[block.hash := block];
    ForkedIs();
    ForkedInv();
    StoringKeepsInvariant(ExampleWorld(), blocks, last, map[0 := 1], block, block);
    EvenChain(after, 2017);
    assert Bottom(after, 4033) == 2016;
  }

  lemma ForkedInv()
    ensures var blocks, last := ForkedBlocks(), ExampleBlock(4033);
         ChainInv(ExampleWorld(), blocks, last, map[0 := 1]) && Genuine(ExampleWorld(), ExampleBlock(4034))
  {
    var blocks, last := ForkedBlocks(), ExampleBlock(4033);
    ForkedTip();
    hide *;
    forall h | h in blocks ensures blocks[h].hash == h && StoredBlock(ExampleWorld(), blocks[h]) && blocks[h].height <= 2016 {
      ForkedAt(h);
    }
    HighTransition(ExampleWorld(), blocks, last, map[0 := 1]);
  }

  lemma ForkedTip()
    ensures var w, blocks, last := ExampleWorld(), ForkedBlocks(), ExampleBlock(4033);
         && last.hash in blocks && blocks[last.hash] == last && last.height == 2016 && Genuine(w, ExampleBlock(4034))
         && Lawful(w) && CheckpointsValid(w, map[0 := 1])
  {}

  /** Any blocks below a tip at a transition height satisfy the invariant. */
  lemma HighTransition(w: World, blocks: BlockSet, last: Block, checkpoints: map<nat, Hash>)
    requires Lawful(w) && CheckpointsValid(w, checkpoints) && last.hash in blocks && blocks[last.hash] == last
    requires last.height % DIFFICULTY_INTERVAL == 0
    requires forall h :: h in blocks ==> blocks[h].hash == h && StoredBlock(w, blocks[h]) && blocks[h].height <= last.height
    ensures ChainInv(w, blocks, last, checkpoints)
  {
    StoredIsLinked(w, blocks);
    hide StoredBlock, CheckpointsValid, Lawful, Linked;
    forall h | h in blocks && blocks[h].height >= last.height ensures Rooted(blocks, h) {}
  }

  lemma ForkedAt(h: Hash)
    requires h in ForkedBlocks()
    ensures var b := ForkedBlocks()[h];
         b.hash == h && StoredBlock(ExampleWorld(), b) && b.height <= 2016
  {}

  lemma ForkedIs()
    ensures var blocks, last, block := ForkedBlocks(), ExampleBlock(4033), ExampleBlock(4034);
         var after := blocks[4034 := block];
         && last.height == 2016 && block.height == 2017 && block.prev == 4032 && block.txHashes == [7] && block.hash == 4034 && last.hash == 4033
         && 4032 in blocks && blocks[4032].height == 2016 && 4034 !in blocks
         && 1 in after && after[1].prev == ZERO && after[1].height == 0 && ZERO !in after
         && 4033 in after && after[4033].prev !in after && after[4033].height == 2016
         && forall i :: 0 < i <= 2017 ==> 2 * i in after && after[2 * i].prev == if i == 1 then 1 else 2 * i - 2
  {}

  lemma {:induction false} EvenChain(blocks: BlockSet, k: nat)
    requires Linked(blocks) && 0 < k && 1 in blocks && blocks[1].prev == ZERO && blocks[1].height == 0 && ZERO !in blocks
    requires 4033 in blocks && blocks[4033].prev !in blocks
    requires forall i :: 0 < i <= k ==> 2 * i in blocks && blocks[2 * i].prev == if i == 1 then 1 else 2 * i - 2
    ensures Bottom(blocks, 2 * k) == 0 && Join(blocks, 2 * k, 4033) == None
    decreases k
  {
    assert !OnChain(blocks, 4033, 2 * k);
    assert blocks[2 * k].prev == if k == 1 then 1 else 2 * k - 2;
    if k > 1 {
      EvenChain(blocks, k - 1);
    } else {
      assert !OnChain(blocks, 4033, 1);
    }
  }

  /** Nothing changes, and what goes is more than one interval below the height. */
  ghost predicate KeepsRecent(was: BlockSet, blocks: BlockSet, height: nat) {
    && (forall h :: h in blocks ==> h in was && blocks[h] == was[h])
    && (forall h :: h in was && was[h].height + DIFFICULTY_INTERVAL >= height ==> h in blocks)
  }

  lemma PlacedGenuine(w: World, blocks: BlockSet, relayed: Block)
    requires Genuine(w, relayed) && relayed.prev in blocks
    ensures Genuine(w, Placed(blocks, relayed))
  {}

  lemma {:induction false} AncestorHeight(blocks: BlockSet, h: Hash, n: nat)
    requires Linked(blocks) && forall x :: x in blocks ==> blocks[x].hash == x
    ensures var b := Ancestor(blocks, h, n);
         b.Some? ==> b.value.hash in blocks && blocks[b.value.hash] == b.value && b.value.height + n == blocks[h].height
    decreases n
  {
    if h in blocks && n > 0 { AncestorHeight(blocks, blocks[h].prev, n - 1); }
  }

  /** Pruning below the result of the walk does not change the walk. */
  lemma {:induction false} AncestorKept(was: BlockSet, blocks: BlockSet, h: Hash, n: nat)
    requires Linked(was) && forall x :: x in blocks ==> x in was && blocks[x] == was[x]
    requires h in was ==> forall x :: x in was && was[x].height + n >= was[h].height ==> x in blocks
    ensures Ancestor(blocks, h, n) == Ancestor(was, h, n)
    decreases n
  {
    if h in was && n > 0 { AncestorKept(was, blocks, was[h].prev, n - 1); }
  }
}
