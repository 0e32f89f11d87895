/** Saving and restoring headers: what _peerRelayedBlock hands to saveBlocks, and how BRPeerManagerNew
    loads checkpoints and saved blocks (core/bitcoin/BRPeerManager.c). */
module Restore {
  import opened Blocks
  import opened ChainModel
  import opened Reorg

  // ---- Saving

  /** Blocks from the tip downwards, each followed by its parent. */
  ghost predicate Consecutive(saved: seq<Block>) {
    forall k :: 0 <= k < |saved| - 1 ==> saved[k].prev == saved[k + 1].hash && saved[k].height == saved[k + 1].height + 1
  }

  ghost predicate SavedChain(saved: seq<Block>, tip: Block) {
    saved != [] && saved[0] == tip && Consecutive(saved) && saved[|saved| - 1].height % DIFFICULTY_INTERVAL == 0
  }

  lemma {:induction false} ConsecutiveHeights(saved: seq<Block>, k: nat)
    requires Consecutive(saved) && k < |saved|
    ensures saved[k].height + k == saved[0].height
  {
    if k > 0 { ConsecutiveHeights(saved, k - 1); }
  }

  /** The first n blocks from h downwards, or all of them if fewer are stored. */
  ghost function Walked(blocks: BlockSet, h: Hash, n: nat): seq<Block>
    decreases n
  {
    if n == 0 || h !in blocks then [] else [blocks[h]] + Walked(blocks, blocks[h].prev, n - 1)
  }

  /** The longest part from the tip that ends at a difficulty transition. */
  ghost function Trimmed(collected: seq<Block>): seq<Block> {
    if collected == [] || collected[|collected| - 1].height % DIFFICULTY_INTERVAL == 0 then collected
    else Trimmed(collected[..|collected| - 1])
  }

  lemma {:induction false} TrimmedAt(collected: seq<Block>, i: nat)
    requires i <= |collected| && (i > 0 ==> collected[i - 1].height % DIFFICULTY_INTERVAL == 0)
    requires forall k :: i <= k < |collected| ==> collected[k].height % DIFFICULTY_INTERVAL != 0
    ensures Trimmed(collected) == collected[..i]
    decreases |collected|
  {
    var n := |collected|;
    if i < n {
      TrimmedAt(collected[..n - 1], i);
      assert collected[..n - 1][..i] == collected[..i];
    } else {
      assert collected[..i] == collected;
    }
  }

  lemma {:induction false} WalkedIs(blocks: BlockSet, h: Hash, n: nat)
    requires Linked(blocks)
    requires forall x :: x in blocks ==> blocks[x].hash == x
    ensures var s := Walked(blocks, h, n);
         && Consecutive(s) && (s != [] <==> n > 0 && h in blocks) && (s != [] ==> s[0] == blocks[h])
         && (h in blocks ==> |s| == if n <= blocks[h].height - Bottom(blocks, h) then n else blocks[h].height - Bottom(blocks, h) + 1)
    decreases n
  {
    if n > 0 && h in blocks {
      var p := blocks[h].prev;
      WalkedIs(blocks, p, n - 1);
      var rest := Walked(blocks, p, n - 1);
      assert Walked(blocks, h, n) == [blocks[h]] + rest;
    }
  }

  lemma {:induction false} TrimmedEnds(collected: seq<Block>)
    requires Consecutive(collected) && |collected| > 0 && |collected| > collected[0].height % DIFFICULTY_INTERVAL
    ensures var s, low := Trimmed(collected), collected[|collected| - 1].height;
         SavedChain(s, collected[0]) && low <= s[|s| - 1].height < low + DIFFICULTY_INTERVAL
    decreases |collected|
  {
    var n := |collected|;
    ConsecutiveHeights(collected, n - 1);
    if collected[n - 1].height % DIFFICULTY_INTERVAL != 0 {
      ConsecutiveHeights(collected, n - 2);
      TrimmedEnds(collected[..n - 1]);
      var s := Trimmed(collected[..n - 1]);
      NotSameRest(collected[n - 1].height, s[|s| - 1].height);
    }
  }

  lemma NotSameRest(low: nat, height: nat)
    requires low % DIFFICULTY_INTERVAL != 0 && height % DIFFICULTY_INTERVAL == 0
    ensures height != low + DIFFICULTY_INTERVAL
  {}

  /** What is handed over reaches down to the first transition at or above the lowest block that is both
      stored and among the last n of the chain. */
  lemma SavedReaches(blocks: BlockSet, tip: Block, n: nat)
    requires Linked(blocks) && tip.hash in blocks && blocks[tip.hash] == tip && Rooted(blocks, tip.hash)
    requires n > tip.height % DIFFICULTY_INTERVAL
    requires forall x :: x in blocks ==> blocks[x].hash == x
    ensures var s := Trimmed(Walked(blocks, tip.hash, n));
            var low := if n <= tip.height - Bottom(blocks, tip.hash) then tip.height + 1 - n else Bottom(blocks, tip.hash);
         SavedChain(s, tip) && low <= s[|s| - 1].height < low + DIFFICULTY_INTERVAL
  {
    var collected := Walked(blocks, tip.hash, n);
    WalkedIs(blocks, tip.hash, n);
    BottomOfRooted(blocks, tip.hash);
    ConsecutiveHeights(collected, |collected| - 1);
    TrimmedEnds(collected);
  }

  lemma {:induction false} BottomOfRooted(blocks: BlockSet, h: Hash)
    requires Linked(blocks) && Rooted(blocks, h)
    ensures Bottom(blocks, h) <= Floor(blocks[h].height)
    decreases blocks[h].height
  {
    if blocks[h].height % DIFFICULTY_INTERVAL != 0 { BottomOfRooted(blocks, blocks[h].prev); }
  }

  lemma {:induction false} WalkedSnoc(blocks: BlockSet, h: Hash, n: nat)
    ensures var s, b := Walked(blocks, h, n), Ancestor(blocks, h, n);
         && (b.Some? ==> |s| == n && Walked(blocks, h, n + 1) == s + [b.value])
         && (b.None? ==> Walked(blocks, h, n + 1) == s)
    decreases n
  {
    if h in blocks && n > 0 { WalkedSnoc(blocks, blocks[h].prev, n - 1); }
  }

  lemma {:induction false} AncestorNext(blocks: BlockSet, h: Hash, n: nat)
    ensures var b := Ancestor(blocks, h, n);
         Ancestor(blocks, h, n + 1) == if b.Some? && b.value.prev in blocks then Some(blocks[b.value.prev]) else None
    decreases n
  {
    if h in blocks && n > 0 { AncestorNext(blocks, blocks[h].prev, n - 1); }
  }

  lemma {:induction false} WalkedAll(blocks: BlockSet, h: Hash, n: nat, more: nat)
    requires Ancestor(blocks, h, n).None? && n <= more
    ensures Walked(blocks, h, more) == Walked(blocks, h, n)
    decreases n
  {
    if h in blocks && n > 0 { WalkedAll(blocks, blocks[h].prev, n - 1, more - 1); }
  }

  lemma {:induction false} WalkedStored(blocks: BlockSet, h: Hash, n: nat)
    requires forall x :: x in blocks ==> blocks[x].hash == x
    ensures forall b :: b in Walked(blocks, h, n) ==> b.hash in blocks && blocks[b.hash] == b
    decreases n
  {
    if n > 0 && h in blocks { WalkedStored(blocks, blocks[h].prev, n - 1); }
  }

  /** The end of _peerRelayedBlock: walk back from the tip, then drop the incomplete interval. */
  method CollectSave(blocks: BlockSet, tip: Block, saveCount: nat) returns (saved: seq<Block>)
    requires Linked(blocks) && tip.hash in blocks && blocks[tip.hash] == tip && Rooted(blocks, tip.hash)
    requires forall h :: h in blocks ==> blocks[h].hash == h
    requires saveCount > 0 ==> saveCount > tip.height % DIFFICULTY_INTERVAL
    ensures saved == Trimmed(Walked(blocks, tip.hash, saveCount))
    ensures saveCount == 0 ==> saved == []
    ensures saveCount > 0 ==> SavedChain(saved, tip)
    ensures forall b :: b in saved ==> b.hash in blocks && blocks[b.hash] == b
  {
    hide SavedChain, Consecutive, Rooted, Linked;
    saved := [];
    var i, b := 0, Some(tip);
    assert Walked(blocks, tip.hash, 0) == [];
    while b.Some? && i < saveCount
      invariant i <= saveCount && saved == Walked(blocks, tip.hash, i) && b == Ancestor(blocks, tip.hash, i)
      invariant i > 0 ==> |saved| == i
    {
      WalkedSnoc(blocks, tip.hash, i);
      AncestorNext(blocks, tip.hash, i);
      saved := saved + [b.value];
      i := i + 1;
      b := if b.value.prev in blocks then Some(blocks[b.value.prev]) else None;
    }
    if b.None? { WalkedAll(blocks, tip.hash, i, saveCount); }
    WalkedStored(blocks, tip.hash, saveCount);
    if i > 0 {
      SavedReaches(blocks, tip, saveCount);
      WalkedIs(blocks, tip.hash, saveCount);
      WalkedLong(blocks, tip, saveCount);
      saved := Trim(saved);
    }
  }

  lemma WalkedLong(blocks: BlockSet, tip: Block, n: nat)
    requires Linked(blocks) && tip.hash in blocks && blocks[tip.hash] == tip && Rooted(blocks, tip.hash) && n > tip.height % DIFFICULTY_INTERVAL
    requires forall x :: x in blocks ==> blocks[x].hash == x
    ensures |Walked(blocks, tip.hash, n)| > tip.height % DIFFICULTY_INTERVAL
  {
    WalkedIs(blocks, tip.hash, n);
    BottomOfRooted(blocks, tip.hash);
  }

  /** Make the blocks to be saved start at a difficulty transition. */
  method Trim(collected: seq<Block>) returns (saved: seq<Block>)
    requires collected != [] && Consecutive(collected) && |collected| > collected[0].height % DIFFICULTY_INTERVAL
    ensures saved == Trimmed(collected) && saved <= collected
  {
    var i := |collected|;
    ConsecutiveHeights(collected, i - 1);
    var j := collected[i - 1].height % DIFFICULTY_INTERVAL;
    if j > 0 {
      TrimmedRoom(collected[0].height, i, j);
      i := i - (if i > DIFFICULTY_INTERVAL - j then DIFFICULTY_INTERVAL - j else i);
      TrimmedTail(collected, i, j);
    }
    TrimmedAt(collected, i);
    saved := collected[..i];
  }

  /** The blocks collected go down past the last transition, so the trimmed part does not reach it. */
  lemma TrimmedRoom(height: nat, i: nat, j: nat)
    requires 0 < i <= height + 1 && i > height % DIFFICULTY_INTERVAL && j == (height - (i - 1)) % DIFFICULTY_INTERVAL > 0
    ensures i > DIFFICULTY_INTERVAL - j
    ensures (height - (i - (DIFFICULTY_INTERVAL - j) - 1)) % DIFFICULTY_INTERVAL == 0
  {}

  /** What is trimmed is less than an interval, so there is no other transition in it. */
  lemma TrimmedTail(collected: seq<Block>, i: nat, j: nat)
    requires Consecutive(collected) && 0 < i < |collected| && i + DIFFICULTY_INTERVAL - j == |collected|
    requires j == collected[|collected| - 1].height % DIFFICULTY_INTERVAL > 0
    ensures collected[i - 1].height % DIFFICULTY_INTERVAL == 0
    ensures forall k :: i <= k < |collected| ==> collected[k].height % DIFFICULTY_INTERVAL != 0
  {
    var n := |collected|;
    ConsecutiveHeights(collected, n - 1);
    ConsecutiveHeights(collected, i - 1);
    forall k | i <= k < n ensures collected[k].height % DIFFICULTY_INTERVAL != 0 {
      ConsecutiveHeights(collected, k);
      Between(collected[n - 1].height, j, n - 1 - k);
    }
  }

  lemma Between(height: nat, j: nat, d: nat)
    requires j == height % DIFFICULTY_INTERVAL > 0 && d < DIFFICULTY_INTERVAL - j
    ensures (height + d) % DIFFICULTY_INTERVAL != 0
  {}

  // ---- Restoring

  /** Checkpoints come with a height and no parent hash. */
  ghost predicate CheckpointList(w: World, list: seq<Block>) {
    && list != []
    && (forall i :: 0 <= i < |list| ==> list[i].prev == ZERO && Bare(list[i]) && StoredBlock(w, list[i]))
    && (forall i, j :: 0 <= i < j < |list| ==> list[i].height != list[j].height)
  }

  ghost predicate AllFrom(list: seq<Block>, blocks: BlockSet) {
    forall h :: h in blocks ==> blocks[h] in list
  }

  /** Nothing but checkpoints of the list has been loaded. */
  ghost predicate FromList(list: seq<Block>, blocks: BlockSet, checkpoints: map<nat, Hash>) {
    && AllFrom(list, blocks)
    && (forall n :: n in checkpoints ==> exists c :: c in list && c.height == n && c.hash == checkpoints[n])
  }

  method LoadCheckpoints(list: seq<Block>, earliestKeyTime: nat, ghost w: World)
    returns (blocks: BlockSet, checkpoints: map<nat, Hash>, last: Block)
    requires Lawful(w) && CheckpointList(w, list)
    ensures ChainInv(w, blocks, last, checkpoints)
    ensures forall h :: h in blocks ==> IsCheckpoint(checkpoints, h, blocks[h].height) && Bare(blocks[h])
    ensures forall c :: c in list ==> c.hash in blocks && c.height in checkpoints
    ensures FromList(list, blocks, checkpoints) && StartingPoint(list, earliestKeyTime, last)
  {
    hide CheckpointList, Loaded, Bare;
    LoadedNone(w, list);
    blocks, checkpoints, last := map[], map[], list[0];
    var i := 0;
    while i < |list|
      invariant i <= |list| && Loaded(w, list, i, blocks, checkpoints) && FromList(list, blocks, checkpoints)
      invariant i > 0 ==> last.hash in blocks && blocks[last.hash] == last
      invariant i > 0 ==> StartingPoint(list[..i], earliestKeyTime, last)
    {
      StartingNext(list, earliestKeyTime, last, i);
      var c := list[i];
      LoadedNew(w, list, i, blocks, checkpoints);
      LoadedMore(w, list, i, blocks, checkpoints);
      checkpoints := checkpoints[c.height := c.hash];
      blocks := blocks[c.hash := c];
      if i == 0 || c.timestamp + 7 * 24 * 60 * 60 < earliestKeyTime {
        last := c;
      }
      i := i + 1;
    }
    assert list[..i] == list;
    LoadedAll(w, list, blocks, checkpoints, last);
  }

  /** The last checkpoint that is more than a week older than the wallet's first key, or else the first one. */
  ghost predicate StartingPoint(list: seq<Block>, earliestKeyTime: nat, last: Block) {
    exists k :: 0 <= k < |list| && list[k] == last && (k == 0 || last.timestamp + 604_800 < earliestKeyTime)
      && forall j :: k < j < |list| ==> list[j].timestamp + 604_800 >= earliestKeyTime
  }

  lemma StartingNext(list: seq<Block>, earliestKeyTime: nat, last: Block, i: nat)
    requires i < |list| && (i > 0 ==> StartingPoint(list[..i], earliestKeyTime, last))
    ensures StartingPoint(list[..i + 1], earliestKeyTime,
                          if i == 0 || list[i].timestamp + 604_800 < earliestKeyTime then list[i] else last)
  {
    var next := list[..i + 1];
    if i == 0 || list[i].timestamp + 604_800 < earliestKeyTime {
      assert next[i] == list[i];
    } else {
      var k :| 0 <= k < i && list[..i][k] == last && (k == 0 || last.timestamp + 604_800 < earliestKeyTime)
        && forall j :: k < j < i ==> list[..i][j].timestamp + 604_800 >= earliestKeyTime;
      assert next[k] == last;
      forall j | k < j < i + 1 ensures next[j].timestamp + 604_800 >= earliestKeyTime {
        if j < i { assert list[..i][j] == next[j]; }
      }
    }
  }

  /** What the first i checkpoints leave behind. */
  ghost predicate Loaded(w: World, list: seq<Block>, i: nat, blocks: BlockSet, checkpoints: map<nat, Hash>)
    requires i <= |list|
  {
    && Stored(w, blocks) && CheckpointsValid(w, checkpoints)
    && (forall h :: h in blocks ==> IsCheckpoint(checkpoints, h, blocks[h].height) && Bare(blocks[h]))
    && (forall k :: 0 <= k < i ==> list[k].hash in blocks && list[k].height in checkpoints)
    && (forall k :: i <= k < |list| ==> list[k].height !in checkpoints)
  }

  lemma LoadedNew(w: World, list: seq<Block>, i: nat, blocks: BlockSet, checkpoints: map<nat, Hash>)
    requires CheckpointList(w, list) && i < |list| && Loaded(w, list, i, blocks, checkpoints)
    ensures list[i].height !in checkpoints && list[i].hash !in blocks
  {
    assert StoredBlock(w, list[i]);
    forall h | h in blocks ensures w.height(h) in checkpoints {
      assert StoredBlock(w, blocks[h]) && IsCheckpoint(checkpoints, h, blocks[h].height);
    }
  }

  lemma LoadedNone(w: World, list: seq<Block>)
    requires CheckpointList(w, list)
    ensures list != [] && Loaded(w, list, 0, map[], map[])
  {}

  lemma LoadedMore(w: World, list: seq<Block>, i: nat, blocks: BlockSet, checkpoints: map<nat, Hash>)
    requires CheckpointList(w, list) && i < |list| && Loaded(w, list, i, blocks, checkpoints)
    requires list[i].height !in checkpoints && list[i].hash !in blocks
    ensures Loaded(w, list, i + 1, blocks[list[i].hash := list[i]], checkpoints[list[i].height := list[i].hash])
  {
    var c := list[i];
    var blocks', checkpoints' := blocks[c.hash := c], checkpoints[c.height := c.hash];
    assert Stored(w, blocks') && CheckpointsValid(w, checkpoints') by {
      hide IsCheckpoint;
      assert StoredBlock(w, c) && Bare(c);
    }
    assert forall h :: h in blocks' ==> IsCheckpoint(checkpoints', h, blocks'[h].height) && Bare(blocks'[h]) by {
      hide Bare, StoredBlock, Stored, CheckpointsValid;
    }
  }

  lemma BareAreRooted(blocks: BlockSet)
    requires Linked(blocks) && forall h :: h in blocks ==> Bare(blocks[h])
    ensures forall h :: h in blocks ==> Rooted(blocks, h)
  {
    forall h | h in blocks ensures Rooted(blocks, h) {
      assert Bare(blocks[h]);
    }
  }

  lemma CheckpointsSatisfy(w: World, blocks: BlockSet, checkpoints: map<nat, Hash>, last: Block)
    requires Lawful(w) && Stored(w, blocks) && CheckpointsValid(w, checkpoints)
    requires forall h :: h in blocks ==> IsCheckpoint(checkpoints, h, blocks[h].height) && Bare(blocks[h])
    requires last.hash in blocks && blocks[last.hash] == last
    ensures ChainInv(w, blocks, last, checkpoints)
  {
    StoredIsLinked(w, blocks);
    BareAreRooted(blocks);
  }

  lemma LoadedAll(w: World, list: seq<Block>, blocks: BlockSet, checkpoints: map<nat, Hash>, last: Block)
    requires Lawful(w) && Loaded(w, list, |list|, blocks, checkpoints) && last.hash in blocks && blocks[last.hash] == last
    ensures ChainInv(w, blocks, last, checkpoints)
    ensures forall h :: h in blocks ==> IsCheckpoint(checkpoints, h, blocks[h].height) && Bare(blocks[h])
    ensures forall c :: c in list ==> c.hash in blocks && c.height in checkpoints
  {
    CheckpointsSatisfy(w, blocks, checkpoints, last);
    hide ChainInv, Stored, CheckpointsValid, IsCheckpoint, Bare;
    forall c | c in list ensures c.hash in blocks && c.height in checkpoints {
      var k :| 0 <= k < |list| && list[k] == c;
      assert list[k].hash in blocks;
    }
  }

  /** Blocks waiting for their parent, keyed by it. */
  type Waiting = map<Hash, Block>

  /** The block that following the waiting blocks upwards from b ends at. */
  ghost function Follow(waiting: Waiting, b: Block): Block
    decreases |waiting|
  {
    var rest := waiting - {b.prev};
    if b.prev in waiting && b.hash in rest then (Fewer(waiting, b.prev); Follow(rest, rest[b.hash])) else b
  }

  lemma Fewer(waiting: Waiting, k: Hash)
    requires k in waiting
    ensures |waiting - {k}| < |waiting|
  {
    assert waiting == (waiting - {k})[k := waiting[k]];
  }

  ghost predicate WaitingValid(w: World, waiting: Waiting) {
    forall p :: p in waiting ==> waiting[p].prev == p && StoredBlock(w, waiting[p])
  }

  /** Only a checkpoint comes without its parent. */
  lemma LinkedIsGenuine(w: World, b: Block)
    requires StoredBlock(w, b) && b.prev != ZERO
    ensures Genuine(w, b)
  {}

  /** First loop of the restore: every saved block waits for its parent; pick the highest transition. */
  method QueueSaved(saved: seq<Block>, ghost w: World) returns (waiting: Waiting, top: Option<Block>)
    requires forall b :: b in saved ==> StoredBlock(w, b)
    ensures WaitingValid(w, waiting)
    ensures forall p :: p in waiting ==> waiting[p] in saved
    ensures forall b :: b in saved ==> b.prev in waiting
    ensures top.None? ==> forall b :: b in saved ==> b.height % DIFFICULTY_INTERVAL != 0
    ensures top.Some? ==> top.value in saved && top.value.height % DIFFICULTY_INTERVAL == 0
    ensures top.Some? ==> forall b :: b in saved && b.height % DIFFICULTY_INTERVAL == 0 ==> b.height <= top.value.height
  {
    waiting, top := map[], None;
    var i := 0;
    while i < |saved|
      invariant i <= |saved| && WaitingValid(w, waiting)
      invariant forall p :: p in waiting ==> waiting[p] in saved
      invariant forall k :: 0 <= k < i ==> saved[k].prev in waiting
      invariant top.None? ==> forall k :: 0 <= k < i ==> saved[k].height % DIFFICULTY_INTERVAL != 0
      invariant top.Some? ==> top.value in saved && top.value.height % DIFFICULTY_INTERVAL == 0
      invariant top.Some? ==> forall k :: 0 <= k < i && saved[k].height % DIFFICULTY_INTERVAL == 0 ==> saved[k].height <= top.value.height
    {
      waiting := waiting[saved[i].prev := saved[i]];
      if saved[i].height % DIFFICULTY_INTERVAL == 0 && (top.None? || saved[i].height > top.value.height) { top := Some(saved[i]); }
      i := i + 1;
    }
  }

  /** Second loop: store the chain of saved blocks that starts at top; its end becomes lastBlock. */
  method LoadChain(blocks: BlockSet, checkpoints: map<nat, Hash>, last0: Block, waiting0: Waiting, top: Block, ghost w: World,
                   ghost from: seq<Block>)
    returns (blocks': BlockSet, last: Block, waiting: Waiting)
    requires ChainInv(w, blocks, last0, checkpoints) && WaitingValid(w, waiting0)
    requires forall h :: h in blocks ==> IsCheckpoint(checkpoints, h, blocks[h].height) && Bare(blocks[h])
    requires StoredBlock(w, top) && top.height % DIFFICULTY_INTERVAL == 0 && top.prev in waiting0
    requires AllFrom(from, blocks) && AllFrom(from, waiting0) && top in from
    ensures ChainInv(w, blocks', last, checkpoints) && last == Follow(waiting0, top)
    ensures forall p :: p in waiting ==> p in waiting0 && waiting[p] == waiting0[p]
    ensures blocks.Keys <= blocks'.Keys
    ensures AllFrom(from, blocks')
  {
    TopKeepsInvariant(w, blocks, last0, checkpoints, top);
    blocks', last, waiting := blocks[top.hash := top], top, waiting0;
    var block := Some(top);
    while block.Some?
      invariant ChainInv(w, blocks', last, checkpoints) && WaitingValid(w, waiting) && blocks.Keys <= blocks'.Keys
      invariant forall p :: p in waiting ==> p in waiting0 && waiting[p] == waiting0[p]
      invariant AllFrom(from, blocks') && (block.Some? ==> block.value in from)
      invariant block.None? ==> last == Follow(waiting0, top)
      invariant block.Some? ==> StoredBlock(w, block.value) && block.value.prev in waiting
      invariant block.Some? ==> Follow(waiting, block.value) == Follow(waiting0, top)
      invariant block.Some? ==> (block.value == last && last == top) || (block.value.prev == last.hash && block.value.height == last.height + 1)
      decreases if block.Some? then 1 + |waiting| else 0
    {
      var b := block.value;
      if b != last {
        LinkedIsGenuine(w, b);
        StoringKeepsInvariant(w, blocks', last, checkpoints, b, b);
        blocks', last := blocks'[b.hash := b], b;
      }
      Fewer(waiting, b.prev);
      waiting := waiting - {b.prev};
      block := if b.hash in waiting then Some(waiting[b.hash]) else None;
      if block.Some? {
        LinkedIsGenuine(w, block.value);
        assert w.height(block.value.hash) == w.height(w.parent(block.value.hash)) + 1;
      }
    }
  }

  lemma TopKeepsInvariant(w: World, blocks: BlockSet, last: Block, checkpoints: map<nat, Hash>, top: Block)
    requires ChainInv(w, blocks, last, checkpoints) && StoredBlock(w, top) && top.height % DIFFICULTY_INTERVAL == 0
    requires forall h :: h in blocks ==> IsCheckpoint(checkpoints, h, blocks[h].height) && Bare(blocks[h])
    ensures ChainInv(w, blocks[top.hash := top], top, checkpoints)
  {
    StoredIsLinked(w, blocks[top.hash := top]);
  }

  /** No two blocks of a consecutive chain have the same parent. */
  lemma SameParent(w: World, chain: seq<Block>, i: nat, k: nat)
    requires Lawful(w) && Consecutive(chain) && i < k < |chain| && StoredBlock(w, chain[i]) && StoredBlock(w, chain[k])
    requires StoredBlock(w, chain[i + 1])
    ensures chain[i].prev != chain[k].prev
  {
    ConsecutiveHeights(chain, i);
    ConsecutiveHeights(chain, k);
    if chain[k].prev != ZERO {
      assert w.height(chain[i].hash) == w.height(w.parent(chain[i].hash)) + 1;
      assert w.height(chain[k].hash) == w.height(w.parent(chain[k].hash)) + 1;
    }
  }

  /** Following saved blocks upwards from position k of a consecutive chain ends at its tip. */
  lemma {:induction false} FollowChain(w: World, waiting: Waiting, chain: seq<Block>, k: nat)
    requires Lawful(w) && Consecutive(chain) && k < |chain| && WaitingValid(w, waiting)
    requires forall i :: 0 <= i <= k ==> chain[i].prev in waiting && waiting[chain[i].prev] == chain[i]
    requires chain[0].hash !in waiting
    ensures Follow(waiting, chain[k]) == chain[0]
    decreases k
  {
    var rest := waiting - {chain[k].prev};
    if k > 0 {
      forall i | 0 <= i < k ensures chain[i].prev in rest {
        SameParent(w, chain, i, k);
      }
      FollowChain(w, rest, chain, k - 1);
    }
  }

  /** The restore queues every block of a saved chain under its own parent. */
  lemma SavedWait(w: World, saved: seq<Block>, waiting: Waiting, i: nat)
    requires Lawful(w) && Consecutive(saved) && (forall b :: b in saved ==> StoredBlock(w, b)) && i < |saved|
    requires WaitingValid(w, waiting) && (forall p :: p in waiting ==> waiting[p] in saved) && saved[i].prev in waiting
    ensures waiting[saved[i].prev] == saved[i]
  {
    hide Lawful, StoredBlock;
    var b := waiting[saved[i].prev];
    var j :| 0 <= j < |saved| && saved[j] == b;
    if i < j { SameParent(w, saved, i, j); }
    if j < i { SameParent(w, saved, j, i); }
  }

  /** Nothing saved with a chain comes after its tip. */
  lemma NoneAfterTip(w: World, saved: seq<Block>, tip: Block, b: Block)
    requires Lawful(w) && Consecutive(saved) && saved != [] && saved[0] == tip && b in saved && StoredBlock(w, b) && StoredBlock(w, tip)
    ensures b.prev != tip.hash
  {
    var j :| 0 <= j < |saved| && saved[j] == b;
    ConsecutiveHeights(saved, j);
    assert w.height(b.hash) == w.height(w.parent(b.hash)) + 1;
  }

  /** Save then restore: from any set of blocks that saveBlocks was given, the chain that the restore
      follows ends at the tip that was saved. */
  lemma RestoredTip(w: World, saved: seq<Block>, tip: Block, waiting: Waiting, top: Block)
    requires Lawful(w) && SavedChain(saved, tip) && (forall b :: b in saved ==> StoredBlock(w, b))
    requires WaitingValid(w, waiting) && (forall p :: p in waiting ==> waiting[p] in saved) && (forall b :: b in saved ==> b.prev in waiting)
    requires top in saved
    ensures Follow(waiting, top) == tip
  {
    hide Follow, Consecutive, StoredBlock, Lawful;
    var k :| 0 <= k < |saved| && saved[k] == top;
    forall i | 0 <= i < |saved| ensures saved[i].prev in waiting && waiting[saved[i].prev] == saved[i] { SavedWait(w, saved, waiting, i); }
    if tip.hash in waiting { NoneAfterTip(w, saved, tip, waiting[tip.hash]); }
    FollowChain(w, waiting, saved, k);
  }

  /** No saved block is higher than this one. */
  ghost predicate NoneAbove(saved: seq<Block>, last: Block) {
    forall b :: b in saved ==> b.height <= last.height
  }

  /** A saved transition block that no saved block is higher than. */
  ghost predicate Topmost(saved: seq<Block>, t: Block) {
    t in saved && t.height % DIFFICULTY_INTERVAL == 0 && NoneAbove(saved, t)
  }

  /** Following saved blocks never goes down. */
  lemma {:induction false} FollowRises(w: World, waiting: Waiting, b: Block)
    requires Lawful(w) && WaitingValid(w, waiting) && StoredBlock(w, b)
    ensures var r := Follow(waiting, b);
         r.height >= b.height && (r == b || (r.prev in waiting && waiting[r.prev] == r))
    decreases |waiting|
  {
    var rest := waiting - {b.prev};
    if b.prev in waiting && b.hash in rest {
      Fewer(waiting, b.prev);
      LinkedIsGenuine(w, rest[b.hash]);
      assert w.height(rest[b.hash].hash) == w.height(w.parent(rest[b.hash].hash)) + 1;
      FollowRises(w, rest, rest[b.hash]);
    }
  }

  lemma RestoredTops(w: World, saved: seq<Block>, waiting: Waiting, top: Block)
    requires Lawful(w) && (forall b :: b in saved ==> StoredBlock(w, b)) && WaitingValid(w, waiting)
    requires forall p :: p in waiting ==> waiting[p] in saved
    requires top in saved && forall b :: b in saved && b.height % DIFFICULTY_INTERVAL == 0 ==> b.height <= top.height
    ensures forall t :: Topmost(saved, t) ==> var last := Follow(waiting, top); last in saved && NoneAbove(saved, last)
  {
    hide StoredBlock;
    FollowRises(w, waiting, top);
  }

  lemma RestoredTips(w: World, saved: seq<Block>, waiting: Waiting, top: Block)
    requires Lawful(w) && (forall b :: b in saved ==> StoredBlock(w, b))
    requires WaitingValid(w, waiting) && (forall p :: p in waiting ==> waiting[p] in saved) && (forall b :: b in saved ==> b.prev in waiting)
    requires top in saved
    ensures forall tip :: SavedChain(saved, tip) ==> Follow(waiting, top) == tip && NoneAbove(saved, tip)
  {
    forall tip | SavedChain(saved, tip) ensures Follow(waiting, top) == tip && NoneAbove(saved, tip) {
      RestoredTip(w, saved, tip, waiting, top);
      forall b | b in saved ensures b.height <= tip.height {
        var k :| 0 <= k < |saved| && saved[k] == b;
        ConsecutiveHeights(saved, k);
      }
    }
  }

  /** No waiting block would be higher than one above lastBlock; a saved checkpoint waits under the zero
      hash, which no block has. */
  ghost predicate WaitingReached(w: World, blocks: BlockSet, last: Block, waiting: Waiting) {
    forall p :: p in waiting ==> waiting[p].prev == p && (p != ZERO ==> Genuine(w, waiting[p]) && ReachedParent(blocks, last, p))
  }

  /** The chain-loading part of BRPeerManagerNew. */
  method Load(list: seq<Block>, saved: seq<Block>, earliestKeyTime: nat, ghost w: World)
    returns (blocks: BlockSet, checkpoints: map<nat, Hash>, last: Block, waiting: Waiting)
    requires Lawful(w) && CheckpointList(w, list)
    requires forall b :: b in saved ==> StoredBlock(w, b)
    ensures ChainInv(w, blocks, last, checkpoints)
    ensures forall c :: c in list ==> c.hash in blocks
    ensures forall tip :: SavedChain(saved, tip) ==> last == tip && NoneAbove(saved, last)
    ensures forall t :: Topmost(saved, t) ==> last in saved && NoneAbove(saved, last)
    ensures NoneAbove(saved, last) ==> WaitingReached(w, blocks, last, waiting)
    ensures (forall b :: b in saved ==> b.height % DIFFICULTY_INTERVAL != 0) ==> StartingPoint(list, earliestKeyTime, last)
    ensures AllFrom(list + saved, blocks) && AllFrom(saved, waiting)
    ensures forall n :: n in checkpoints ==> exists c :: c in list && c.height == n && c.hash == checkpoints[n]
  {
    var top;
    blocks, checkpoints, last := LoadCheckpoints(list, earliestKeyTime, w);
    waiting, top := QueueSaved(saved, w);
    if top.Some? {
      RestoredTips(w, saved, waiting, top.value);
      RestoredTops(w, saved, waiting, top.value);
      blocks, last, waiting := LoadChain(blocks, checkpoints, last, waiting, top.value, w, list + saved);
    }
    if NoneAbove(saved, last) { NothingTooHigh(w, blocks, last, waiting); }
  }

  lemma NothingTooHigh(w: World, blocks: BlockSet, last: Block, waiting: Waiting)
    requires Lawful(w) && Stored(w, blocks) && WaitingValid(w, waiting) && forall p :: p in waiting ==> waiting[p].height <= last.height
    ensures WaitingReached(w, blocks, last, waiting)
  {
    forall p | p in waiting && p != ZERO ensures Genuine(w, waiting[p]) { LinkedIsGenuine(w, waiting[p]); }
    forall p | p in waiting && p in blocks ensures blocks[p].height <= last.height {
      var b := waiting[p];
      assert w.height(b.hash) == w.height(w.parent(b.hash)) + 1 && StoredBlock(w, b) && StoredBlock(w, blocks[p]);
    }
  }

  // ---- What saveBlocks keeps

  /** The saved blocks after another call of saveBlocks: more than one block replace what was saved before,
      a single one is added to it. */
  function Kept(file: seq<Block>, batch: seq<Block>): seq<Block> {
    if |batch| > 1 then batch else file + batch
  }

  function KeptAll(file: seq<Block>, batches: seq<seq<Block>>): seq<Block>
    decreases |batches|
  {
    if batches == [] then file else KeptAll(Kept(file, batches[0]), batches[1..])
  }

  /** What may be on file while the chain is at a given height: nothing, one saved chain, or blocks of which
      a difficulty transition is the highest. */
  ghost predicate OnFile(w: World, file: seq<Block>, height: nat) {
    && (forall b :: b in file ==> StoredBlock(w, b) && b.height <= height)
    && (file == [] || (exists tip :: SavedChain(file, tip)) || exists t :: Topmost(file, t))
  }

  /** Saving once more keeps the file restorable. */
  lemma SavingKeepsFile(w: World, file: seq<Block>, batch: seq<Block>, height: nat, last: Block)
    requires OnFile(w, file, height) && height <= last.height
    requires batch != [] ==> SavedChain(batch, last) && forall b :: b in batch ==> StoredBlock(w, b)
    ensures OnFile(w, Kept(file, batch), last.height)
  {
    hide StoredBlock;
    if |batch| > 1 {
      forall b | b in batch ensures b.height <= last.height {
        var k :| 0 <= k < |batch| && batch[k] == b;
        ConsecutiveHeights(batch, k);
      }
    } else if |batch| == 1 {
      assert Topmost(file + batch, last);
    } else {
      assert file + batch == file;
    }
  }
}
