/** The stored header chain of core/bitcoin/BRPeerManager.c as a value: which blocks are linked, which
    are rooted in a difficulty transition, and what pruning may take away. */
module ChainModel {
  import opened Blocks

  /** Hash collisions do not happen: a block hash determines the block before it and its height. */
  datatype World = World(parent: Hash -> Hash, height: Hash -> int)

  ghost predicate Lawful(w: World) {
    forall h :: h != ZERO ==> w.height(h) == w.height(w.parent(h)) + 1
  }

  type BlockSet = map<Hash, Block>

  /** A checkpoint is loaded without its previous block hash, always at a difficulty transition. */
  predicate Bare(b: Block) {
    b.prev == ZERO && b.height % DIFFICULTY_INTERVAL == 0
  }

  ghost predicate Genuine(w: World, b: Block) {
    b.hash != ZERO && b.prev == w.parent(b.hash) && b.target < 0x1_0000_0000 && w.height(b.hash) < BLOCK_UNKNOWN_HEIGHT
  }

  ghost predicate StoredBlock(w: World, b: Block) {
    && b.hash != ZERO && b.height == w.height(b.hash) < BLOCK_UNKNOWN_HEIGHT && b.target < 0x1_0000_0000
    && (b.prev == w.parent(b.hash) || Bare(b))
  }

  ghost predicate Stored(w: World, blocks: BlockSet) {
    forall h :: h in blocks ==> blocks[h].hash == h && StoredBlock(w, blocks[h])
  }

  /** A stored parent is exactly one lower. */
  ghost predicate Linked(blocks: BlockSet) {
    forall h :: h in blocks && blocks[h].prev in blocks ==> blocks[blocks[h].prev].height + 1 == blocks[h].height
  }

  lemma StoredIsLinked(w: World, blocks: BlockSet)
    requires Lawful(w) && Stored(w, blocks)
    ensures Linked(blocks) && ZERO !in blocks
  {
    forall h | h in blocks && blocks[h].prev in blocks
      ensures blocks[blocks[h].prev].height + 1 == blocks[h].height
    {
      assert StoredBlock(w, blocks[h]) && StoredBlock(w, blocks[blocks[h].prev]);
      assert blocks[h].prev != ZERO;
      assert w.height(h) == w.height(w.parent(h)) + 1;
    }
  }

  /** Following prevBlock from h leads down to a difficulty transition without a gap. */
  ghost predicate Rooted(blocks: BlockSet, h: Hash)
    requires Linked(blocks)
    decreases if h in blocks then blocks[h].height else 0
  {
    h in blocks && (blocks[h].height % DIFFICULTY_INTERVAL == 0 || (blocks[h].prev in blocks && Rooted(blocks, blocks[h].prev)))
  }

  /** The block n steps back from h, if all of them are stored. */
  function Ancestor(blocks: BlockSet, h: Hash, n: nat): Option<Block>
    decreases n
  {
    if h !in blocks then None else if n == 0 then Some(blocks[h]) else Ancestor(blocks, blocks[h].prev, n - 1)
  }

  /** x is h or a block that following prevBlock from h meets. */
  ghost predicate OnChain(blocks: BlockSet, h: Hash, x: Hash)
    requires Linked(blocks)
    decreases if h in blocks then blocks[h].height else 0
  {
    h in blocks && (h == x || (blocks[h].prev in blocks && OnChain(blocks, blocks[h].prev, x)))
  }

  function Floor(height: nat): nat { height - height % DIFFICULTY_INTERVAL }

  /** Everything on the way to the last transition is there. */
  lemma {:induction false} RootedReaches(blocks: BlockSet, h: Hash, n: nat)
    requires Linked(blocks) && Rooted(blocks, h) && n <= blocks[h].height % DIFFICULTY_INTERVAL
    ensures Ancestor(blocks, h, n).Some? && Ancestor(blocks, h, n).value.height == blocks[h].height - n
    decreases n
  {
    if n > 0 { RootedReaches(blocks, blocks[h].prev, n - 1); }
  }

  /** blocks' keeps every block of height at least low, with its height and, off transitions, its link. */
  ghost predicate KeepsAbove(blocks: BlockSet, blocks': BlockSet, low: nat) {
    forall h :: h in blocks && blocks[h].height >= low ==>
      && h in blocks' && blocks'[h].height == blocks[h].height
      && (blocks'[h].prev == blocks[h].prev || blocks[h].height % DIFFICULTY_INTERVAL == 0)
  }

  lemma {:induction false} RootedStays(blocks: BlockSet, blocks': BlockSet, low: nat, h: Hash)
    requires Linked(blocks) && Linked(blocks') && low % DIFFICULTY_INTERVAL == 0 && KeepsAbove(blocks, blocks', low)
    requires Rooted(blocks, h) && blocks[h].height >= low
    ensures Rooted(blocks', h)
    decreases blocks[h].height
  {
    if blocks[h].height % DIFFICULTY_INTERVAL != 0 {
      var p := blocks[h].prev;
      assert blocks[p].height >= low;
      RootedStays(blocks, blocks', low, p);
    }
  }

  // ---- Pruning

  /** Drop the ancestors of a transition block, starting at h, except other transition blocks. */
  function Pruned(blocks: BlockSet, h: Hash): (r: BlockSet)
    requires Linked(blocks)
    ensures Linked(r)
    decreases if h in blocks then blocks[h].height else 0, if h in blocks then 1 else 0
  {
    if h !in blocks then blocks
    else
      var rest := if blocks[h].height % DIFFICULTY_INTERVAL != 0 then blocks - {h} else blocks;
      if blocks[h].prev !in blocks then rest
      else assert blocks[h].prev != h; Pruned(rest, blocks[h].prev)
  }

  lemma {:induction false} PrunedIs(blocks: BlockSet, h: Hash)
    requires Linked(blocks)
    ensures var r := Pruned(blocks, h);
         && (forall x :: x in r ==> x in blocks && r[x] == blocks[x])
         && (forall x :: x in blocks && x !in r ==>
              h in blocks && blocks[x].height <= blocks[h].height && blocks[x].height % DIFFICULTY_INTERVAL != 0 && OnChain(blocks, h, x))
    decreases if h in blocks then blocks[h].height else 0, if h in blocks then 1 else 0
  {
    if h in blocks && blocks[h].prev in blocks {
      var rest := if blocks[h].height % DIFFICULTY_INTERVAL != 0 then blocks - {h} else blocks;
      var p := blocks[h].prev;
      PrunedIs(rest, p);
      forall x | x in rest && x !in Pruned(rest, p) ensures OnChain(blocks, h, x) {
        OnChainWithout(blocks, rest, p, x);
      }
    }
  }

  /** Every block off the transitions that is on the chain of h goes. */
  lemma {:induction false} PrunedAll(blocks: BlockSet, h: Hash, x: Hash)
    requires Linked(blocks) && OnChain(blocks, h, x) && x in blocks && blocks[x].height % DIFFICULTY_INTERVAL != 0
    ensures x !in Pruned(blocks, h)
    decreases if h in blocks then blocks[h].height else 0, if h in blocks then 1 else 0
  {
    var p := blocks[h].prev;
    var rest := if blocks[h].height % DIFFICULTY_INTERVAL != 0 then blocks - {h} else blocks;
    if p in blocks {
      PrunedIs(rest, p);
      if x != h {
        OnChainBeneath(blocks, rest, h, p, x);
        PrunedAll(rest, p, x);
      }
    }
  }

  /** Taking a block away does not touch the chain of a lower one. */
  lemma {:induction false} OnChainBeneath(blocks: BlockSet, rest: BlockSet, h: Hash, p: Hash, x: Hash)
    requires Linked(blocks) && Linked(rest) && h in blocks && p in blocks && blocks[p].height < blocks[h].height
    requires forall y :: y in blocks && y != h ==> y in rest && rest[y] == blocks[y]
    requires OnChain(blocks, p, x)
    ensures OnChain(rest, p, x) && x in rest && x in blocks && rest[x] == blocks[x]
    decreases blocks[p].height
  {
    if p != x { OnChainBeneath(blocks, rest, h, blocks[p].prev, x); }
  }

  lemma {:induction false} OnChainWithout(blocks: BlockSet, rest: BlockSet, h: Hash, x: Hash)
    requires Linked(blocks) && Linked(rest) && (forall y :: y in rest ==> y in blocks && rest[y] == blocks[y])
    requires OnChain(rest, h, x)
    ensures OnChain(blocks, h, x)
    decreases rest[h].height
  {
    if h != x { OnChainWithout(blocks, rest, rest[h].prev, x); }
  }

  // ---- The invariant

  /** h is the checkpoint of its height. */
  predicate IsCheckpoint(checkpoints: map<nat, Hash>, h: Hash, height: nat) {
    height in checkpoints && checkpoints[height] == h
  }

  /** lastBlock has the greatest height stored, not counting checkpoints. */
  ghost predicate Highest(blocks: BlockSet, last: Block, checkpoints: map<nat, Hash>) {
    forall h :: h in blocks ==> blocks[h].height <= last.height || IsCheckpoint(checkpoints, h, blocks[h].height)
  }

  /** From the last transition height on, every stored block is rooted. */
  ghost predicate Retained(blocks: BlockSet, last: Block)
    requires Linked(blocks)
  {
    forall h :: h in blocks && blocks[h].height >= Floor(last.height) ==> Rooted(blocks, h)
  }

  ghost predicate CheckpointsValid(w: World, checkpoints: map<nat, Hash>) {
    forall n :: n in checkpoints ==> n % DIFFICULTY_INTERVAL == 0 && w.height(checkpoints[n]) == n
  }

  ghost predicate ChainInv(w: World, blocks: BlockSet, last: Block, checkpoints: map<nat, Hash>) {
    && Lawful(w) && Stored(w, blocks) && Linked(blocks) && CheckpointsValid(w, checkpoints)
    && last.hash in blocks && blocks[last.hash] == last
    && Highest(blocks, last, checkpoints) && Retained(blocks, last)
  }

  /** The parent a relayed block names has been reached by the chain. */
  ghost predicate ReachedParent(blocks: BlockSet, last: Block, prev: Hash) {
    prev in blocks ==> blocks[prev].height <= last.height
  }

  /** A transition block that extends lastBlock finds the previous transition, 2016 blocks back. */
  lemma TransitionFound(w: World, blocks: BlockSet, last: Block, checkpoints: map<nat, Hash>)
    requires ChainInv(w, blocks, last, checkpoints) && (last.height + 1) % DIFFICULTY_INTERVAL == 0
    ensures var b := Ancestor(blocks, last.hash, DIFFICULTY_INTERVAL - 1);
         b.Some? && b.value.height == last.height + 1 - DIFFICULTY_INTERVAL
  {
    RootedReaches(blocks, last.hash, DIFFICULTY_INTERVAL - 1);
  }

  /** Blocks may go as long as they are below the last transition height. */
  lemma PruningKeepsInvariant(w: World, blocks: BlockSet, blocks': BlockSet, last: Block, checkpoints: map<nat, Hash>)
    requires ChainInv(w, blocks, last, checkpoints)
    requires forall x :: x in blocks' ==> x in blocks && blocks'[x] == blocks[x]
    requires forall x :: x in blocks && x !in blocks' ==> blocks[x].height < Floor(last.height)
    ensures ChainInv(w, blocks', last, checkpoints)
  {
    FewerAreStored(w, blocks, blocks', last, checkpoints);
    FloorMonotone(last.height, last.height);
    hide Stored, Linked, Highest, CheckpointsValid, Rooted, Lawful, Floor;
    forall h | h in blocks' && blocks'[h].height >= Floor(last.height) ensures Rooted(blocks', h) {
      RootedStays(blocks, blocks', Floor(last.height), h);
    }
  }

  lemma FewerAreStored(w: World, blocks: BlockSet, blocks': BlockSet, last: Block, checkpoints: map<nat, Hash>)
    requires Stored(w, blocks) && Linked(blocks) && Highest(blocks, last, checkpoints)
    requires forall x :: x in blocks' ==> x in blocks && blocks'[x] == blocks[x]
    ensures Stored(w, blocks') && Linked(blocks') && Highest(blocks', last, checkpoints)
  {
    hide StoredBlock, IsCheckpoint;
  }

  /** Storing a verified block, new or already known, keeps the invariant; it becomes lastBlock if it
      extends lastBlock or is higher, and may do so too if it replaces lastBlock. */
  lemma StoringKeepsInvariant(w: World, blocks: BlockSet, last: Block, checkpoints: map<nat, Hash>, b: Block, last': Block)
    requires ChainInv(w, blocks, last, checkpoints)
    requires Genuine(w, b) && b.prev in blocks && blocks[b.prev].height <= last.height && b.height == blocks[b.prev].height + 1
    requires last' == b || (last' == last && b.hash != last.hash)
    requires last' == b ==> b.height >= last.height
    requires last' != b && b.height > last.height ==> IsCheckpoint(checkpoints, b.hash, b.height)
    ensures ChainInv(w, blocks[b.hash := b], last', checkpoints)
  {
    var blocks' := blocks[b.hash := b];
    HeightFollows(w, blocks, b);
    assert Stored(w, blocks');
    StoredIsLinked(w, blocks');
    RetainedAfterStoring(w, blocks, last, b, last');
  }

  lemma HeightFollows(w: World, blocks: BlockSet, b: Block)
    requires Lawful(w) && Stored(w, blocks) && Genuine(w, b) && b.prev in blocks && b.height == blocks[b.prev].height + 1
    ensures StoredBlock(w, b)
  {
    assert w.height(b.hash) == w.height(w.parent(b.hash)) + 1;
    assert StoredBlock(w, blocks[b.prev]);
  }

  lemma RetainedAfterStoring(w: World, blocks: BlockSet, last: Block, b: Block, last': Block)
    requires Stored(w, blocks) && Linked(blocks) && Linked(blocks[b.hash := b]) && Retained(blocks, last)
    requires StoredBlock(w, b) && b.prev == w.parent(b.hash) && b.prev in blocks && b.height == blocks[b.prev].height + 1
    requires last'.height >= last.height
    ensures Retained(blocks[b.hash := b], last')
  {
    var blocks', low := blocks[b.hash := b], Floor(last'.height);
    FloorMonotone(last.height, last'.height);
    SameHash(w, blocks, b);
    forall h | h in blocks' && blocks'[h].height >= low ensures Rooted(blocks', h) {
      if h != b.hash {
        RootedStays(blocks, blocks', low, h);
      } else if b.height % DIFFICULTY_INTERVAL != 0 {
        RootedStays(blocks, blocks', low, b.prev);
      }
    }
  }

  lemma FloorMonotone(a: nat, b: nat)
    requires a <= b
    ensures Floor(a) <= Floor(b) && Floor(b) % DIFFICULTY_INTERVAL == 0
  {}

  lemma SameHash(w: World, blocks: BlockSet, b: Block)
    requires Stored(w, blocks) && StoredBlock(w, b) && b.prev == w.parent(b.hash)
    ensures KeepsAbove(blocks, blocks[b.hash := b], 0)
  {}
}
