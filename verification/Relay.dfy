/** What relaying a block does in core/bitcoin/BRPeerManager.c, as functions of the manager's state: the
    verdict on the block, the next state, and the orphan that follows.  One verdict is that the source
    fails an assertion; when it does is part of the functions. */
module Relay {
  import opened Blocks
  import opened ChainModel
  import opened Difficulty
  import opened Reorg
  import opened Restore
  import L = Ledger

  const ONE_WEEK: nat := 7 * 24 * 60 * 60
  const TWO_HOURS: nat := 2 * 60 * 60

  /** What became of a relayed block; Aborted is a failed assertion of the code. */
  datatype Outcome = Ignored | Orphaned | Rejected | Extended | Known | OldFork | Forked | Reorganised | Aborted

  datatype Params = Params(checkpoints: map<nat, Hash>, lastCheckpoint: nat, earliestKeyTime: nat)

  /** The manager's blocks, the height it expects the chain to have, and the confirmation heights of the
      wallet's transactions. */
  datatype State = State(blocks: BlockSet, orphans: BlockSet, last: Block, estimated: nat, heights: map<Hash, nat>)

  /** The checks on a block whose parent is stored, read off the chain as it was before pruning. */
  ghost predicate Verified(blocks: BlockSet, checkpoints: map<nat, Hash>, block: Block)
    requires block.prev in blocks
  {
    var b := Ancestor(blocks, block.prev, DIFFICULTY_INTERVAL - 1);
    && (block.height % DIFFICULTY_INTERVAL == 0 ==> b.Some?)
    && Acceptable(block, Some(blocks[block.prev]), if block.height % DIFFICULTY_INTERVAL == 0 && b.Some? then b.value.timestamp else 0)
    && (block.height in checkpoints ==> checkpoints[block.height] == block.hash)
  }

  /** A relayed block gets its height from its parent. */
  function Placed(blocks: BlockSet, relayed: Block): Block
    requires relayed.prev in blocks
  {
    relayed.(height := blocks[relayed.prev].height + 1)
  }

  /** The block or header is dropped unseen: a header from the time when blocks are needed, or any
      block while the bloom filter is being replaced. */
  predicate Unwanted(p: Params, block: Block, filterReady: bool) {
    (block.totalTx == 0 && block.timestamp + ONE_WEEK > p.earliestKeyTime + TWO_HOURS) || !filterReady
  }

  /** The stored blocks once a block has been looked at: at a transition, what lies before the previous
      one is pruned. */
  ghost function Cleared(blocks: BlockSet, block: Block): (r: BlockSet)
    requires Linked(blocks)
    ensures Linked(r)
  {
    var b := Ancestor(blocks, block.prev, DIFFICULTY_INTERVAL - 1);
    if block.height % DIFFICULTY_INTERVAL == 0 && b.Some? then Pruned(blocks, b.value.prev) else blocks
  }

  /** The walk from a fork tip runs out of blocks before it joins the main chain or leaves it behind. */
  ghost predicate Stuck(blocks: BlockSet, tip: Hash, main: Hash) {
    Linked(blocks) && Join(blocks, tip, main).None? && Bottom(blocks, tip) >= Bottom(blocks, main)
  }

  /** The branch that a verified block takes. */
  ghost function StoreOutcome(blocks: BlockSet, last: Block, lastCheckpoint: nat, block: Block): Outcome
    requires Linked(blocks)
  {
    if block.prev == last.hash then Extended
    else if block.hash in blocks then
      if Bottom(blocks, last.hash) <= block.height then Known else Aborted
    else if block.height <= lastCheckpoint then OldFork
    else if block.height <= last.height then Forked
    else if Stuck(blocks[block.hash := block], block.hash, last.hash) then Aborted
    else Reorganised
  }

  /** The height of a wallet transaction after a reorganisation that joins at height join. */
  ghost function ReorgHeight(blocks: BlockSet, tip: Hash, join: nat, id: Hash, height: nat): nat
    requires Linked(blocks)
  {
    BranchHeight(blocks, tip, join, id, if height > join then L.TX_UNCONFIRMED else height)
  }

  /** The same for any reorganisation: without a join among the stored blocks, everything from the lowest
      block of the old chain on is un-confirmed and the new branch confirms nothing. */
  ghost function NewHeight(blocks: BlockSet, tip: Hash, main: Hash, id: Hash, height: nat): nat
    requires Linked(blocks)
  {
    var join := Join(blocks, tip, main);
    if join.Some? then ReorgHeight(blocks, tip, join.value.height, id, height)
    else if height >= Bottom(blocks, main) then L.TX_UNCONFIRMED
    else height
  }

  /** j is on both chains, and no higher block is. */
  ghost predicate HighestCommon(blocks: BlockSet, tip: Hash, main: Hash, j: Hash) {
    Linked(blocks) && j in blocks && Common(blocks, tip, main, j) && CommonUpTo(blocks, tip, main, blocks[j].height)
  }

  /** The height that a transaction should have once the chain of tip, which leaves the old one at height
      join, has become the main chain: that of the lowest new block that proves it, if any does; otherwise
      the old one, unless that belonged to a block of the old chain above the join. */
  ghost predicate Reconfirmed(blocks: BlockSet, tip: Hash, join: nat, id: Hash, was: nat, height: nat)
    requires Linked(blocks)
  {
    if exists x :: Mines(blocks, tip, join, id, x)
      then exists x :: LowestMine(blocks, tip, join, id, x) && height == blocks[x].height
      else height == if was > join then L.TX_UNCONFIRMED else was
  }

  /** Every transaction has the height it should have, wherever the chains part. */
  ghost predicate AllReconfirmed(blocks: BlockSet, tip: Hash, main: Hash, was: map<Hash, nat>, heights: map<Hash, nat>) {
    forall j, id :: HighestCommon(blocks, tip, main, j) && id in was && id in heights ==>
      Reconfirmed(blocks, tip, blocks[j].height, id, was[id], heights[id])
  }

  /** A reorganisation gives every transaction the height it should have. */
  lemma ReorganisationIs(blocks: BlockSet, tip: Hash, main: Hash, j: Hash, id: Hash, was: nat)
    requires HighestCommon(blocks, tip, main, j)
    ensures Reconfirmed(blocks, tip, blocks[j].height, id, was, NewHeight(blocks, tip, main, id, was))
  {
    hide Linked, Mines, Common, CommonUpTo, BranchHeight;
    JoinIs(blocks, tip, main, j);
    var join := blocks[j].height;
    BranchHeightIs(blocks, tip, join, id, if was > join then L.TX_UNCONFIRMED else was);
  }

  /** The height of a wallet transaction after a block was stored with the given outcome. */
  ghost function StoredHeight(outcome: Outcome, blocks: BlockSet, last: Block, block: Block, id: Hash, height: nat): nat
    requires Linked(blocks)
  {
    match outcome
    case Extended => if id in block.txHashes then block.height else height
    case Known => if OnChain(blocks, last.hash, block.hash) && id in block.txHashes then block.height else height
    case Reorganised =>
      var after := blocks[block.hash := block];
      if Linked(after) then NewHeight(after, block.hash, last.hash, id, height) else height
    case _ => height
  }

  /** The verdict on a relayed block. */
  ghost function Judged(p: Params, s: State, relayed: Block, now: nat, filterReady: bool): Outcome
    requires Linked(s.blocks)
  {
    if Unwanted(p, relayed, filterReady) then Ignored
    else if relayed.prev !in s.blocks then if relayed.timestamp + ONE_WEEK < now then Ignored else Orphaned
    else
      var block := Placed(s.blocks, relayed);
      if !Verified(s.blocks, p.checkpoints, block) then Rejected
      else StoreOutcome(Cleared(s.blocks, block), s.last, p.lastCheckpoint, block)
  }

  predicate IsStored(outcome: Outcome) { outcome in {Extended, Known, Forked, Reorganised} }

  /** How many blocks to save: a transition block at once while syncing, and everything back to
      the previous transition but one when the download is complete. */
  function SaveCount(outcome: Outcome, height: nat, estimated: nat): (n: nat)
    ensures outcome !in {Extended, Reorganised} ==> n == 0
    ensures n > 0 ==> n > height % DIFFICULTY_INTERVAL
  {
    if (outcome == Extended || outcome == Reorganised) && height == estimated
      then height % DIFFICULTY_INTERVAL + DIFFICULTY_INTERVAL + 1
    else if outcome == Extended && height % DIFFICULTY_INTERVAL == 0 && height + 100 < estimated then 1
    else 0
  }

  /** The state after a relayed block that does not abort. */
  ghost function Relayed(p: Params, s: State, relayed: Block, now: nat, filterReady: bool): State
    requires Linked(s.blocks)
  {
    var outcome := Judged(p, s, relayed, now, filterReady);
    if relayed.prev !in s.blocks || outcome in {Ignored, Aborted} then
      if outcome == Orphaned then s.(orphans := s.orphans[relayed.prev := relayed]) else s
    else
      var block := Placed(s.blocks, relayed);
      var blocks := Cleared(s.blocks, block);
      if !IsStored(outcome) then s.(blocks := blocks)
      else
        State(blocks[block.hash := block],
              s.orphans - {block.hash},
              if outcome == Forked || (outcome == Known && block.hash != s.last.hash) then s.last else block,
              if block.height > s.estimated then block.height else s.estimated,
              map id | id in s.heights :: StoredHeight(outcome, blocks, s.last, block, id, s.heights[id]))
  }

  /** The blocks to be saved after block was stored. */
  ghost function SavedBlocks(blocks: BlockSet, block: Block, outcome: Outcome, estimated: nat): seq<Block> {
    Trimmed(Walked(blocks, block.hash, SaveCount(outcome, block.height, estimated)))
  }

  /** What a block that takes over does to the heights, wherever its chain leaves the old one. */
  lemma ReorganisedHeights(p: Params, s: State, relayed: Block, now: nat, filterReady: bool)
    requires Linked(s.blocks) && relayed.prev in s.blocks && Judged(p, s, relayed, now, filterReady) == Reorganised
    ensures var after := Relayed(p, s, relayed, now, filterReady);
         AllReconfirmed(after.blocks, relayed.hash, s.last.hash, s.heights, after.heights)
  {
    hide Verified, Cleared, Common, CommonUpTo, Reconfirmed, NewHeight, StoreOutcome, Linked;
    var after := Relayed(p, s, relayed, now, filterReady);
    forall j, id | HighestCommon(after.blocks, relayed.hash, s.last.hash, j) && id in s.heights
      ensures Reconfirmed(after.blocks, relayed.hash, after.blocks[j].height, id, s.heights[id], after.heights[id])
    {
      ReorganisationIs(after.blocks, relayed.hash, s.last.hash, j, id, s.heights[id]);
    }
  }

  /** A block that extends the chain gives its height to exactly the transactions it proves; one that is not
      stored, or only kept on a fork, changes no height. */
  lemma OtherHeights(p: Params, s: State, relayed: Block, now: nat, filterReady: bool)
    requires Linked(s.blocks)
    ensures Judged(p, s, relayed, now, filterReady) in {Ignored, Orphaned, Rejected, OldFork, Forked} ==>
              Relayed(p, s, relayed, now, filterReady).heights == s.heights
    ensures Judged(p, s, relayed, now, filterReady) == Extended ==>
              var after := Relayed(p, s, relayed, now, filterReady);
              && relayed.prev == s.last.hash && after.last.hash == relayed.hash && after.heights.Keys == s.heights.Keys
              && forall id :: id in s.heights ==>
                   after.heights[id] == if id in relayed.txHashes then after.last.height else s.heights[id]
  {
    hide Verified, Pruned, Stuck, Ancestor, Bottom, Linked, NewHeight;
    if Judged(p, s, relayed, now, filterReady) == Forked {
      assert Relayed(p, s, relayed, now, filterReady).heights == s.heights;
    }
  }

  /** What a relayed block hands to saveBlocks. */
  ghost function Handed(p: Params, s: State, relayed: Block, now: nat, filterReady: bool): seq<Block>
    requires Linked(s.blocks)
  {
    var outcome := Judged(p, s, relayed, now, filterReady);
    if !IsStored(outcome) || relayed.prev !in s.blocks then [] else
      SavedBlocks(Relayed(p, s, relayed, now, filterReady).blocks, Placed(s.blocks, relayed), outcome, s.estimated)
  }

  ghost predicate SameHeights(outcome: Outcome, blocks: BlockSet, last: Block, block: Block, was: map<Hash, nat>, heights: map<Hash, nat>)
    requires Linked(blocks)
  {
    heights.Keys == was.Keys && forall id :: id in was ==> heights[id] == StoredHeight(outcome, blocks, last, block, id, was[id])
  }

  /** The heights of the listed transactions. */
  ghost function HeightsOf(ids: seq<Hash>, height: map<Hash, nat>): map<Hash, nat>
    requires forall id :: id in ids ==> id in height
  {
    map id | id in ids :: height[id]
  }

  ghost predicate SameTransactions(a: seq<Hash>, b: seq<Hash>) {
    forall id :: id in a <==> id in b
  }

  lemma HeightsChange(outcome: Outcome, blocks: BlockSet, last: Block, block: Block, ids: seq<Hash>, height: map<Hash, nat>,
                      ids': seq<Hash>, height': map<Hash, nat>)
    requires Linked(blocks) && SameTransactions(ids, ids')
    requires (forall id :: id in ids ==> id in height) && forall id :: id in ids' ==> id in height'
    requires forall id :: id in ids' ==> height'[id] == StoredHeight(outcome, blocks, last, block, id, height[id])
    ensures SameHeights(outcome, blocks, last, block, HeightsOf(ids, height), HeightsOf(ids', height'))
  {
    hide StoredHeight, Linked;
  }

  /** The transactions that a block proves got its height, and no other changed. */
  ghost predicate Confirmed(block: Block, was: map<Hash, nat>, heights: map<Hash, nat>) {
    heights.Keys == was.Keys && forall id :: id in was ==> heights[id] == if id in block.txHashes then block.height else was[id]
  }

  lemma ConfirmedIs(outcome: Outcome, blocks: BlockSet, last: Block, block: Block, was: map<Hash, nat>, heights: map<Hash, nat>)
    requires Linked(blocks) && Confirmed(block, was, heights)
    requires outcome == Extended || (outcome == Known && OnChain(blocks, last.hash, block.hash))
    ensures SameHeights(outcome, blocks, last, block, was, heights)
  {
    hide Linked, OnChain;
  }

  lemma HeightsStay(outcome: Outcome, blocks: BlockSet, last: Block, block: Block, heights: map<Hash, nat>)
    requires Linked(blocks)
    requires outcome in {OldFork, Aborted} || (outcome == Known && !OnChain(blocks, last.hash, block.hash))
    ensures SameHeights(outcome, blocks, last, block, heights, heights)
  {
    hide Linked, OnChain;
  }

  /** Storing a block leaves the waiting ones within reach. */
  lemma WaitingStays(w: World, blocks: BlockSet, last: Block, waiting: Waiting, block: Block, last': Block)
    requires WaitingReached(w, blocks, last, waiting) && last.height <= last'.height
    requires block.height <= last'.height || (block.hash in blocks && blocks[block.hash].height == block.height)
    ensures WaitingReached(w, blocks[block.hash := block], last', waiting)
  {
    hide Genuine;
  }

  /** A block that is stored already keeps its height, and may be replaced. */
  lemma RefreshKeepsInvariant(w: World, blocks: BlockSet, last: Block, checkpoints: map<nat, Hash>, block: Block)
    requires ChainInv(w, blocks, last, checkpoints) && Genuine(w, block) && block.hash in blocks
    requires block.prev in blocks && blocks[block.prev].height <= last.height && block.height == blocks[block.prev].height + 1
    ensures block.height == blocks[block.hash].height < BLOCK_UNKNOWN_HEIGHT
    ensures ChainInv(w, blocks[block.hash := block], if block.hash == last.hash then block else last, checkpoints)
  {
    hide Linked, Retained, CheckpointsValid;
    HeightFollows(w, blocks, block);
    assert StoredBlock(w, blocks[block.hash]);
    StoringKeepsInvariant(w, blocks, last, checkpoints, block, if block.hash == last.hash then block else last);
  }

  /** A block with a stored parent, put together from what its verification and storing did. */
  lemma RelayedIs(p: Params, s: State, relayed: Block, now: nat, filterReady: bool,
                  block: Block, blocks: BlockSet, outcome: Outcome, after: State, saved: seq<Block>)
    requires Linked(s.blocks) && relayed.prev in s.blocks && !Unwanted(p, relayed, filterReady)
    requires block == Placed(s.blocks, relayed) && blocks == Cleared(s.blocks, block)
    requires outcome == if Verified(s.blocks, p.checkpoints, block) then StoreOutcome(blocks, s.last, p.lastCheckpoint, block) else Rejected
    requires IsStored(outcome) ==> after.blocks == blocks[block.hash := block] && after.orphans == s.orphans - {block.hash}
    requires IsStored(outcome) ==>
      after.last == (if outcome == Forked || (outcome == Known && block.hash != s.last.hash) then s.last else block)
    requires IsStored(outcome) ==> after.estimated == if block.height > s.estimated then block.height else s.estimated
    requires IsStored(outcome) ==> SameHeights(outcome, blocks, s.last, block, s.heights, after.heights)
    requires outcome in {Rejected, OldFork} ==> after == s.(blocks := blocks)
    requires saved == if IsStored(outcome) then SavedBlocks(after.blocks, block, outcome, s.estimated) else []
    ensures outcome == Judged(p, s, relayed, now, filterReady)
    ensures outcome != Aborted ==> after == Relayed(p, s, relayed, now, filterReady)
    ensures saved == Handed(p, s, relayed, now, filterReady)
  {
    hide SavedBlocks, StoredHeight, Verified, Pruned, Stuck, Ancestor, Linked;
    if IsStored(outcome) {
      var r := Relayed(p, s, relayed, now, filterReady);
      assert after.heights == r.heights;
    }
  }

  /** A block is dropped unseen, or kept for later, exactly in these cases; a week is 604800 seconds. */
  lemma DroppedIff(p: Params, s: State, relayed: Block, now: nat, filterReady: bool)
    requires Linked(s.blocks)
    ensures var outcome := Judged(p, s, relayed, now, filterReady);
            var onlyHeader := relayed.totalTx == 0 && relayed.timestamp + 604_800 > p.earliestKeyTime + 7200;
            var known := relayed.prev in s.blocks;
         && (outcome == Ignored <==> !filterReady || onlyHeader || (!known && relayed.timestamp + 604_800 < now))
         && (outcome == Orphaned <==> filterReady && !onlyHeader && !known && relayed.timestamp + 604_800 >= now)
  {
    hide Verified, Pruned, Stuck, Ancestor, Bottom;
  }

  /** When the chain reaches its expected height, what is saved goes from the tip down to the transition
      before the last one, if that much is stored. */
  lemma SavedAtEnd(blocks: BlockSet, tip: Block, outcome: Outcome, estimated: nat)
    requires Linked(blocks) && tip.hash in blocks && blocks[tip.hash] == tip && Rooted(blocks, tip.hash)
    requires (forall x :: x in blocks ==> blocks[x].hash == x) && outcome in {Extended, Reorganised} && tip.height == estimated
    requires tip.height >= 2016 && Bottom(blocks, tip.hash) <= Floor(tip.height) - 2016
    ensures var s := SavedBlocks(blocks, tip, outcome, estimated);
         SavedChain(s, tip) && s[|s| - 1].height == Floor(tip.height) - 2016
  {
    hide SavedChain, Rooted, Linked, Bottom, Trimmed, Walked;
    var n := SaveCount(outcome, tip.height, estimated);
    SavedReaches(blocks, tip, n);
    SavedEnds(blocks, tip, n);
  }

  lemma SavedEnds(blocks: BlockSet, tip: Block, n: nat)
    requires var s := Trimmed(Walked(blocks, tip.hash, n));
         SavedChain(s, tip) && Floor(tip.height) - 2016 <= s[|s| - 1].height < Floor(tip.height)
    ensures var s := Trimmed(Walked(blocks, tip.hash, n)); s[|s| - 1].height == Floor(tip.height) - 2016
  {
    hide Trimmed, Walked;
  }

  /** While syncing, a new transition block is saved by itself. */
  lemma SavedWhileSyncing(blocks: BlockSet, tip: Block, outcome: Outcome, estimated: nat)
    requires tip.hash in blocks && blocks[tip.hash] == tip && tip.height + 100 < estimated
    ensures SavedBlocks(blocks, tip, outcome, estimated) == if outcome == Extended && tip.height % 2016 == 0 then [tip] else []
  {
    assert Walked(blocks, tip.hash, 0) == [] && Trimmed([]) == [];
    assert Walked(blocks, tip.prev, 0) == [] && [tip] + [] == [tip];
  }

  /** A relayed block that is stored at a checkpoint height is that checkpoint; off the transitions it has its
      parent's target; and one that neither extends the main chain nor is known lies above the checkpoints. */
  lemma StoredIsChecked(p: Params, s: State, relayed: Block, now: nat, filterReady: bool)
    requires Linked(s.blocks) && IsStored(Judged(p, s, relayed, now, filterReady))
    ensures relayed.prev in s.blocks && s.blocks[relayed.prev].hash == relayed.prev
    ensures var height := s.blocks[relayed.prev].height + 1;
         && (height in p.checkpoints ==> relayed.hash == p.checkpoints[height])
         && (height % 2016 != 0 ==> relayed.target == s.blocks[relayed.prev].target)
         && (height > p.lastCheckpoint || relayed.prev == s.last.hash || relayed.hash in s.blocks)
  {
    hide Pruned, Stuck, Ancestor, Bottom;
    ClearedKeeps(s.blocks, Placed(s.blocks, relayed));
  }

  lemma ClearedKeeps(blocks: BlockSet, block: Block)
    requires Linked(blocks)
    ensures forall h :: h in Cleared(blocks, block) ==> h in blocks
  {
    var b := Ancestor(blocks, block.prev, DIFFICULTY_INTERVAL - 1);
    if b.Some? { PrunedIs(blocks, b.value.prev); }
  }

  // ---- When the code fails

  lemma {:induction false} BottomStays(blocks: BlockSet, blocks': BlockSet, x: Hash, b: Block, h: Hash)
    requires Linked(blocks) && Linked(blocks') && x !in blocks && blocks' == blocks[x := b]
    requires h in blocks && b.height + 1 < Bottom(blocks, h)
    ensures Bottom(blocks', h) == Bottom(blocks, h)
    decreases blocks[h].height
  {
    if blocks[h].prev in blocks { BottomStays(blocks, blocks', x, b, blocks[h].prev); }
  }

  /** A fork block from below the stored main chain is stored when it is first relayed, and fails the
      code when it is relayed again. */
  lemma LateForkTwice(p: Params, s: State, relayed: Block, now: nat)
    requires Linked(s.blocks) && s.last.hash in s.blocks && relayed.prev in s.blocks && relayed.hash !in s.blocks
    requires relayed.totalTx != 0 && relayed.prev != s.last.hash && relayed.hash !in s.orphans
    requires var block := Placed(s.blocks, relayed);
          && block.height % DIFFICULTY_INTERVAL != 0 && Acceptable(block, Some(s.blocks[relayed.prev]), 0)
          && block.height !in p.checkpoints && p.lastCheckpoint < block.height <= s.last.height
          && block.height + 1 < Bottom(s.blocks, s.last.hash) && Linked(s.blocks[block.hash := block])
    ensures Judged(p, s, relayed, now, true) == Forked && Follower(p, s, relayed, now, true) == None
    ensures var after := Relayed(p, s, relayed, now, true);
         && after.blocks == s.blocks[relayed.hash := Placed(s.blocks, relayed)] && after.last == s.last
         && Judged(p, after, relayed, now, true) == Aborted
  {
    var block := Placed(s.blocks, relayed);
    var after := Relayed(p, s, relayed, now, true);
    assert after.blocks == s.blocks[block.hash := block];
    BottomStays(s.blocks, after.blocks, block.hash, block, s.last.hash);
  }

  /** Blocks that are stored already never fail the code from the last transition height on. */
  lemma RecentKnownIsSafe(w: World, blocks: BlockSet, last: Block, checkpoints: map<nat, Hash>, lastCheckpoint: nat, block: Block)
    requires ChainInv(w, blocks, last, checkpoints) && block.hash in blocks && block.height >= Floor(last.height)
    ensures StoreOutcome(blocks, last, lastCheckpoint, block) != Aborted
  {
    BottomOfRooted(blocks, last.hash);
  }

  /** The orphan that was waiting for a relayed block. */
  ghost function Follower(p: Params, s: State, relayed: Block, now: nat, filterReady: bool): Option<Block>
    requires Linked(s.blocks)
  {
    if IsStored(Judged(p, s, relayed, now, filterReady)) && relayed.hash in s.orphans then Some(s.orphans[relayed.hash]) else None
  }

  /** A relayed block and all orphans that follow it lead from s to end, and hand the given lists of
      blocks to saveBlocks one after the other, unless one of them aborts. */
  ghost predicate RunsTo(p: Params, s: State, relayed: Block, now: nat, filterReady: bool,
                         saves: seq<seq<Block>>, end: State, aborted: bool)
    decreases |s.orphans|
  {
    && Linked(s.blocks)
    && if Judged(p, s, relayed, now, filterReady) == Aborted then aborted && saves == [] else
       var next, after := Follower(p, s, relayed, now, filterReady), Relayed(p, s, relayed, now, filterReady);
       var first := Batch(Handed(p, s, relayed, now, filterReady));
       if next.None? then !aborted && end == after && saves == first
       else first <= saves && |after.orphans| < |s.orphans| && RunsTo(p, after, next.value, now, filterReady, saves[|first|..], end, aborted)
  }

  /** saveBlocks is not called without blocks. */
  function Batch(handed: seq<Block>): seq<seq<Block>> {
    if handed == [] then [] else [handed]
  }

  lemma RunStops(p: Params, s: State, relayed: Block, now: nat, filterReady: bool, end: State)
    requires Linked(s.blocks)
    requires var outcome := Judged(p, s, relayed, now, filterReady);
         outcome == Aborted || (Follower(p, s, relayed, now, filterReady).None? && end == Relayed(p, s, relayed, now, filterReady))
    ensures RunsTo(p, s, relayed, now, filterReady, Batch(Handed(p, s, relayed, now, filterReady)), end,
                   Judged(p, s, relayed, now, filterReady) == Aborted)
  {
    hide Judged, Relayed, Follower, SavedBlocks;
  }

  lemma RunGoesOn(p: Params, s: State, relayed: Block, now: nat, filterReady: bool, more: seq<seq<Block>>, end: State, aborted: bool)
    requires Linked(s.blocks) && Judged(p, s, relayed, now, filterReady) != Aborted
    requires var next, after := Follower(p, s, relayed, now, filterReady), Relayed(p, s, relayed, now, filterReady);
         next.Some? && |after.orphans| < |s.orphans| && RunsTo(p, after, next.value, now, filterReady, more, end, aborted)
    ensures RunsTo(p, s, relayed, now, filterReady, Batch(Handed(p, s, relayed, now, filterReady)) + more, end, aborted)
  {
    hide Judged, Relayed, Follower, Handed, Batch;
    var first := Batch(Handed(p, s, relayed, now, filterReady));
    assert (first + more)[|first|..] == more;
  }

  lemma KeptSplit(file: seq<Block>, saved: seq<Block>, more: seq<seq<Block>>)
    ensures KeptAll(file, Batch(saved) + more) == KeptAll(KeptAll(file, Batch(saved)), more)
  {
    if saved == [] {
      assert Batch(saved) + more == more;
    } else {
      assert (Batch(saved) + more)[1..] == more && Batch(saved)[1..] == [];
    }
  }

  lemma FileKept(w: World, saved: seq<Block>, height: nat, last: Block)
    requires height <= last.height && (saved != [] ==> SavedChain(saved, last) && forall b :: b in saved ==> StoredBlock(w, b))
    ensures forall file :: OnFile(w, file, height) ==> OnFile(w, KeptAll(file, Batch(saved)), last.height)
  {
    hide SavedChain, StoredBlock, OnFile;
    forall file | OnFile(w, file, height) ensures OnFile(w, KeptAll(file, Batch(saved)), last.height) {
      SavingKeepsFile(w, file, saved, height, last);
      assert saved == [] ==> file + saved == file;
      assert Batch(saved) != [] ==> Batch(saved)[1..] == [];
    }
  }

  /** A run ends in one way only. */
  lemma {:induction false} RunIsUnique(p: Params, s: State, relayed: Block, now: nat, filterReady: bool,
                                       saves: seq<seq<Block>>, end: State, aborted: bool, saves': seq<seq<Block>>, end': State, aborted': bool)
    requires RunsTo(p, s, relayed, now, filterReady, saves, end, aborted) && RunsTo(p, s, relayed, now, filterReady, saves', end', aborted')
    ensures aborted == aborted' && saves == saves' && (!aborted ==> end == end')
    decreases |s.orphans|
  {
    hide Judged, Relayed, Follower, Handed;
    if Judged(p, s, relayed, now, filterReady) != Aborted && Follower(p, s, relayed, now, filterReady).Some? {
      var after, next := Relayed(p, s, relayed, now, filterReady), Follower(p, s, relayed, now, filterReady).value;
      var n := |Batch(Handed(p, s, relayed, now, filterReady))|;
      RunIsUnique(p, after, next, now, filterReady, saves[n..], end, aborted, saves'[n..], end', aborted');
      assert saves == saves[..n] + saves[n..] && saves' == saves'[..n] + saves'[n..];
    }
  }
}
