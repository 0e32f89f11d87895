/** The partial Merkle tree decoder of core/bitcoin/BRMerkleBlock.c: two recursive walks that share
    cursors over the flags and the hashes.  Both are proved against one parse of the block. */
module MerkleProof {
  import opened Bitwise
  import opened Blocks

  const SIZE_MAX: nat := 0xffff_ffff_ffff_ffff

  datatype MerkleBlock = MerkleBlock(totalTx: nat, hashes: seq<Hash>, flags: seq<bv8>)

  /** A node of the tree as the block describes it; Missing is a node for which data ran out. */
  datatype Branch = Missing | Stub(hash: Hash) | Match(hash: Hash) | Fork(left: Branch, right: Branch)

  // ---- Height of the tree

  /** Number of pairings that reduce a row of n nodes to one. */
  function Height(n: nat): nat {
    if n <= 1 then 0 else 1 + Height((n + 1) / 2)
  }

  function FloorLog2(n: nat): nat {
    if n <= 1 then 0 else 1 + FloorLog2(n / 2)
  }

  lemma {:induction false} HeightSuccessor(k: nat)
    requires k >= 1
    ensures Height(k + 1) == FloorLog2(k) + 1
  {
    if k > 1 {
      HeightSuccessor(k / 2);
      assert (k + 2) / 2 == k / 2 + 1;
    }
  }

  /** Clearing the lowest set bit leaves nothing exactly for the powers of two. */
  lemma {:induction false} HeightIsRoundedLog(n: nat)
    requires n >= 1
    ensures Height(n) == FloorLog2(n) + if And(n, n - 1) != 0 then 1 else 0
  {
    if n % 2 == 0 {
      HeightIsRoundedLog(n / 2);
      assert (n - 1) / 2 == n / 2 - 1 && (n + 1) / 2 == n / 2;
    } else if n > 1 {
      AndSelf(n / 2);
      assert (n - 1) / 2 == n / 2 && (n + 1) / 2 == n / 2 + 1;
      HeightSuccessor(n / 2);
    } else {
      assert And(1, 0) == 0 by { assert And(0, 0) == 0; }
    }
  }

  method CeilLog2(n: nat) returns (r: nat)
    ensures r == Height(n)
  {
    if n > 0 { HeightIsRoundedLog(n); }
    r := if n > 0 && And(n, n - 1) != 0 then 1 else 0;
    var x: nat := n / 2;
    ghost var base := r;
    while x != 0
      invariant r + (if x == 0 then 0 else 1 + FloorLog2(x)) == base + FloorLog2(n)
    {
      r := r + 1;
      x := x / 2;
    }
  }

  // ---- Reading a block

  predicate FlagBit(flags: seq<bv8>, i: nat)
    requires i / 8 < |flags|
  {
    flags[i / 8] & ((1 as bv8) << (i % 8)) != 0
  }

  /** All the flag bits of a block, little-endian in each byte. */
  function Bits(flags: seq<bv8>): seq<bool> {
    seq(8 * |flags|, i requires 0 <= i < 8 * |flags| => FlagBit(flags, i))
  }

  /** The node that starts at the given cursors, h rows above the leaves, and the cursors after it. */
  ghost function Read(bits: seq<bool>, hashes: seq<Hash>, hashIdx: nat, flagIdx: nat, h: nat): (r: (Branch, nat, nat))
    ensures hashIdx <= r.1 && flagIdx <= r.2
    ensures hashIdx <= |hashes| ==> r.1 <= |hashes|
    decreases h
  {
    if flagIdx >= |bits| || hashIdx >= |hashes| then (Missing, hashIdx, flagIdx)
    else if !bits[flagIdx] then (Stub(hashes[hashIdx]), hashIdx + 1, flagIdx + 1)
    else if h == 0 then (Match(hashes[hashIdx]), hashIdx + 1, flagIdx + 1)
    else
      var (left, hl, fl) := Read(bits, hashes, hashIdx, flagIdx + 1, h - 1);
      var (right, hr, fr) := Read(bits, hashes, hl, fl, h - 1);
      (Fork(left, right), hr, fr)
  }

  /** One step of the parse, off the bytes. */
  lemma ReadStep(flags: seq<bv8>, hashes: seq<Hash>, hashIdx: nat, flagIdx: nat, h: nat)
    ensures Read(Bits(flags), hashes, hashIdx, flagIdx, h) ==
      if flagIdx / 8 >= |flags| || hashIdx >= |hashes| then (Missing, hashIdx, flagIdx)
      else if !FlagBit(flags, flagIdx) then (Stub(hashes[hashIdx]), hashIdx + 1, flagIdx + 1)
      else if h == 0 then (Match(hashes[hashIdx]), hashIdx + 1, flagIdx + 1)
      else
        var (left, hl, fl) := Read(Bits(flags), hashes, hashIdx, flagIdx + 1, h - 1);
        var (right, hr, fr) := Read(Bits(flags), hashes, hl, fl, h - 1);
        (Fork(left, right), hr, fr)
  {
    hide FlagBit;
  }

  /** Txids of the matched leaves, left to right. */
  ghost function Matches(t: Branch): seq<Hash> {
    match t
    case Match(hash) => [hash]
    case Fork(left, right) => Matches(left) + Matches(right)
    case _ => []
  }

  /** The pair hash of a node; a missing right child counts as a copy of the left one. */
  function PairHash(h2: (Hash, Hash) -> Hash, left: Hash, right: Hash): Hash {
    h2(left, if right == ZERO then left else right)
  }

  /** The root hash of a node, and whether some node below it took the reject branch: a left hash
      that is missing or equals its right hash.  A rejection exhausts the hashes, so once the left
      child is rejected the right child is missing. */
  ghost function Evaluate(h2: (Hash, Hash) -> Hash, t: Branch): (Hash, bool) {
    match t
    case Missing => (ZERO, false)
    case Stub(hash) => (hash, false)
    case Match(hash) => (hash, false)
    case Fork(left, right) =>
      var (a, rejectedLeft) := Evaluate(h2, left);
      var (c, rejectedRight) := Evaluate(h2, right);
      var right := if rejectedLeft then ZERO else c;
      if a != ZERO && a != right then (PairHash(h2, a, right), rejectedLeft || rejectedRight) else (ZERO, true)
  }

  ghost function Root(h2: (Hash, Hash) -> Hash, t: Branch): Hash { Evaluate(h2, t).0 }

  ghost predicate Rejected(h2: (Hash, Hash) -> Hash, t: Branch) { Evaluate(h2, t).1 }

  // ---- The two walks

  class Walk {
    var hashIdx: nat
    var flagIdx: nat
    var txHashes: seq<Hash>

    constructor ()
      ensures hashIdx == flagIdx == 0 && txHashes == []
    {
      hashIdx, flagIdx, txHashes := 0, 0, [];
    }

    /** The walk that recomputes the Merkle root. */
    method RootR(b: MerkleBlock, h2: (Hash, Hash) -> Hash, depth: nat) returns (md: Hash)
      requires depth <= Height(b.totalTx) && |b.hashes| < SIZE_MAX
      modifies this`hashIdx, this`flagIdx
      ensures var (t, h, f) := Read(Bits(b.flags), b.hashes, old(hashIdx), old(flagIdx), Height(b.totalTx) - depth);
           && md == Root(h2, t)
           && (if Rejected(h2, t) then hashIdx == SIZE_MAX else hashIdx == h && flagIdx == f)
      decreases Height(b.totalTx) - depth, 0
    {
      hide Read, Bits, FlagBit, PairHash, Height;
      ReadStep(b.flags, b.hashes, hashIdx, flagIdx, Height(b.totalTx) - depth);
      md := ZERO;
      if flagIdx / 8 < |b.flags| && hashIdx < |b.hashes| {
        var flag := FlagBit(b.flags, flagIdx);
        flagIdx := flagIdx + 1;
        var height := CeilLog2(b.totalTx);
        if flag && depth != height {
          md := RootPair(b, h2, depth);
        } else {
          md := b.hashes[hashIdx];
          hashIdx := hashIdx + 1;
        }
      }
    }

    /** Both branches of a node, whose flag has been read. */
    method RootPair(b: MerkleBlock, h2: (Hash, Hash) -> Hash, depth: nat) returns (md: Hash)
      requires depth < Height(b.totalTx) && |b.hashes| < SIZE_MAX
      modifies this`hashIdx, this`flagIdx
      ensures var (left, hl, fl) := Read(Bits(b.flags), b.hashes, old(hashIdx), old(flagIdx), Height(b.totalTx) - depth - 1);
              var (right, h, f) := Read(Bits(b.flags), b.hashes, hl, fl, Height(b.totalTx) - depth - 1);
           && md == Root(h2, Fork(left, right))
           && (if Rejected(h2, Fork(left, right)) then hashIdx == SIZE_MAX else hashIdx == h && flagIdx == f)
      decreases Height(b.totalTx) - depth - 1, 1
    {
      hide Read, Bits, FlagBit, PairHash, Height;
      var left := RootR(b, h2, depth + 1);
      ReadStep(b.flags, b.hashes, hashIdx, flagIdx, Height(b.totalTx) - depth - 1);
      var right := RootR(b, h2, depth + 1);
      if left != ZERO && left != right {
        md := PairHash(h2, left, right);
      } else {
        md := ZERO;
        hashIdx := SIZE_MAX;
      }
    }

    /** The walk that collects matched txids, at most capacity of them in all. */
    method TxHashesR(b: MerkleBlock, capacity: nat, depth: nat)
      requires depth <= Height(b.totalTx) && |txHashes| <= capacity
      modifies this
      ensures var (t, h, f) := Read(Bits(b.flags), b.hashes, old(hashIdx), old(flagIdx), Height(b.totalTx) - depth);
           && hashIdx == h && flagIdx == f
           && txHashes == Prefix(old(txHashes) + Matches(t), capacity)
      decreases Height(b.totalTx) - depth, 0
    {
      hide Read, Bits, FlagBit, Height, Prefix;
      ReadStep(b.flags, b.hashes, hashIdx, flagIdx, Height(b.totalTx) - depth);
      PrefixNone(txHashes, capacity);
      if flagIdx / 8 < |b.flags| && hashIdx < |b.hashes| {
        var flag := FlagBit(b.flags, flagIdx);
        flagIdx := flagIdx + 1;
        var height := CeilLog2(b.totalTx);
        if !flag || depth == height {
          PrefixAppend(txHashes, b.hashes[hashIdx], capacity);
          if flag && |txHashes| < capacity {
            txHashes := txHashes + [b.hashes[hashIdx]];
          }
          hashIdx := hashIdx + 1;
        } else {
          TxHashesBoth(b, capacity, depth + 1);
        }
      }
    }

    /** Left branch, then right branch. */
    method TxHashesBoth(b: MerkleBlock, capacity: nat, depth: nat)
      requires depth <= Height(b.totalTx) && |txHashes| <= capacity
      modifies this
      ensures var (left, hl, fl) := Read(Bits(b.flags), b.hashes, old(hashIdx), old(flagIdx), Height(b.totalTx) - depth);
              var (right, hr, fr) := Read(Bits(b.flags), b.hashes, hl, fl, Height(b.totalTx) - depth);
           && hashIdx == hr && flagIdx == fr
           && txHashes == Prefix(old(txHashes) + (Matches(left) + Matches(right)), capacity)
      decreases Height(b.totalTx) - depth, 1
    {
      hide Read, Bits, Height, Matches;
      ghost var (left, hl, fl) := Read(Bits(b.flags), b.hashes, hashIdx, flagIdx, Height(b.totalTx) - depth);
      ghost var right := Read(Bits(b.flags), b.hashes, hl, fl, Height(b.totalTx) - depth).0;
      PrefixTwice(txHashes, Matches(left), Matches(right), capacity);
      TxHashesR(b, capacity, depth);
      TxHashesR(b, capacity, depth);
    }
  }

  function Prefix<T>(s: seq<T>, n: nat): seq<T> {
    if |s| <= n then s else s[..n]
  }

  lemma PrefixNone<T>(s: seq<T>, n: nat)
    requires |s| <= n
    ensures Prefix(s + [], n) == s
  {
    assert s + [] == s;
  }

  lemma PrefixAppend<T>(s: seq<T>, x: T, n: nat)
    requires |s| <= n
    ensures Prefix(s + [x], n) == if |s| < n then s + [x] else s
  {}

  lemma PrefixTwice<T>(a: seq<T>, b: seq<T>, c: seq<T>, n: nat)
    ensures Prefix(Prefix(a + b, n) + c, n) == Prefix(a + (b + c), n)
  {
    assert (a + b) + c == a + (b + c);
  }

  /** What a whole block describes. */
  ghost function Parsed(b: MerkleBlock): Branch {
    Read(Bits(b.flags), b.hashes, 0, 0, Height(b.totalTx)).0
  }

  /** BRMerkleBlockTxHashes with room for capacity hashes. */
  method TxHashes(b: MerkleBlock, capacity: nat) returns (txHashes: seq<Hash>)
    ensures txHashes == Prefix(Matches(Parsed(b)), capacity)
  {
    var walk := new Walk();
    walk.TxHashesR(b, capacity, 0);
    assert [] + Matches(Parsed(b)) == Matches(Parsed(b));
    txHashes := walk.txHashes;
  }

  // ---- Every reported txid is proved

  /** One step up the tree: on which side the node is, and its sibling's hash. */
  datatype Step = OnLeft(sibling: Hash) | OnRight(sibling: Hash)

  ghost function Climb(h2: (Hash, Hash) -> Hash, leaf: Hash, path: seq<Step>): Hash {
    if path == [] then leaf else
      var below := Climb(h2, leaf, path[..|path| - 1]);
      match path[|path| - 1]
      case OnLeft(sibling) => h2(below, sibling)
      case OnRight(sibling) => h2(sibling, below)
  }

  ghost predicate NonZeroHashes(hashes: seq<Hash>, h2: (Hash, Hash) -> Hash) {
    (forall x, y :: h2(x, y) != ZERO) && forall i :: 0 <= i < |hashes| ==> hashes[i] != ZERO
  }

  lemma {:induction false} RootNonZero(bits: seq<bool>, hashes: seq<Hash>, h2: (Hash, Hash) -> Hash, hashIdx: nat, flagIdx: nat, h: nat)
    requires NonZeroHashes(hashes, h2)
    ensures var t := Read(bits, hashes, hashIdx, flagIdx, h).0; t.Missing? || Rejected(h2, t) || Root(h2, t) != ZERO
  {
    var t := Read(bits, hashes, hashIdx, flagIdx, h).0;
    if t.Fork? {
      assert Root(h2, t) == PairHash(h2, Root(h2, t.left), if Rejected(h2, t.left) then ZERO else Root(h2, t.right)) || Rejected(h2, t);
    }
  }

  /** If no node of the block takes the reject branch, each reported txid is the start of a chain of
      exactly Height(totalTx) pair hashes that ends in the computed root. */
  lemma {:induction false} MatchHasPath(bits: seq<bool>, hashes: seq<Hash>, h2: (Hash, Hash) -> Hash, hashIdx: nat, flagIdx: nat, h: nat, k: nat)
    returns (path: seq<Step>)
    requires NonZeroHashes(hashes, h2) && !Rejected(h2, Read(bits, hashes, hashIdx, flagIdx, h).0)
    requires k < |Matches(Read(bits, hashes, hashIdx, flagIdx, h).0)|
    ensures var t := Read(bits, hashes, hashIdx, flagIdx, h).0;
         |path| == h && Climb(h2, Matches(t)[k], path) == Root(h2, t)
    decreases h
  {
    var t := Read(bits, hashes, hashIdx, flagIdx, h).0;
    if t.Match? {
      path := [];
    } else {
      var (left, hl, fl) := Read(bits, hashes, hashIdx, flagIdx + 1, h - 1);
      var right := Read(bits, hashes, hl, fl, h - 1).0;
      RootNonZero(bits, hashes, h2, hl, fl, h - 1);
      var below, step;
      if k < |Matches(left)| {
        below := MatchHasPath(bits, hashes, h2, hashIdx, flagIdx + 1, h - 1, k);
        step := OnLeft(if Root(h2, right) == ZERO then Root(h2, left) else Root(h2, right));
      } else {
        below := MatchHasPath(bits, hashes, h2, hl, fl, h - 1, k - |Matches(left)|);
        step := OnRight(Root(h2, left));
      }
      path := below + [step];
      assert path[..|path| - 1] == below;
    }
  }

  ghost predicate HasPath(h2: (Hash, Hash) -> Hash, leaf: Hash, length: nat, root: Hash) {
    exists path: seq<Step> :: |path| == length && Climb(h2, leaf, path) == root
  }

  lemma ReportedTxIsProved(b: MerkleBlock, h2: (Hash, Hash) -> Hash)
    requires NonZeroHashes(b.hashes, h2) && !Rejected(h2, Parsed(b))
    ensures forall txHash :: txHash in Matches(Parsed(b)) ==>
              HasPath(h2, txHash, Height(b.totalTx), Root(h2, Parsed(b)))
  {
    var txHashes := Matches(Parsed(b));
    forall k | 0 <= k < |txHashes|
      ensures HasPath(h2, txHashes[k], Height(b.totalTx), Root(h2, Parsed(b)))
    {
      var path := MatchHasPath(Bits(b.flags), b.hashes, h2, 0, 0, Height(b.totalTx), k);
    }
  }

  /** The root check of BRMerkleBlockIsValid.  sound says that the walk has not ended with the mark of the
      reject branch, which the code does not look at; with it, an accepted block proves what it lists. */
  method RootIsValid(b: MerkleBlock, merkleRoot: Hash, h2: (Hash, Hash) -> Hash) returns (ok: bool, sound: bool)
    requires |b.hashes| < SIZE_MAX
    ensures ok <==> b.totalTx == 0 || Root(h2, Parsed(b)) == merkleRoot
    ensures sound <==> !Rejected(h2, Parsed(b))
    ensures ok && sound && b.totalTx > 0 && NonZeroHashes(b.hashes, h2) ==>
      forall txHash :: txHash in Matches(Parsed(b)) ==> HasPath(h2, txHash, Height(b.totalTx), merkleRoot)
  {
    var walk := new Walk();
    var root := walk.RootR(b, h2, 0);
    ok := b.totalTx == 0 || root == merkleRoot;
    sound := walk.hashIdx != SIZE_MAX;
    if sound && NonZeroHashes(b.hashes, h2) { ReportedTxIsProved(b, h2); }
  }

  /** The bits 1, 0, 1, 0, 1, 1, 1, 0. */
  const EXAMPLE_FLAGS: seq<bv8> := [117]

  lemma ExampleBits()
    ensures Bits(EXAMPLE_FLAGS) == [true, false, true, false, true, true, true, false]
  {
    var bits := Bits(EXAMPLE_FLAGS);
    assert bits[0] && !bits[1] && bits[2] && !bits[3] && bits[4] && bits[5] && bits[6] && !bits[7];
  }

  /** Without the mark acceptance proves nothing about the listing: five transactions are announced, the
      root is that of three, and two hashes that are no part of it are listed. */
  lemma RejectedNodeExample(h2: (Hash, Hash) -> Hash, a: Hash, c: Hash, x: Hash)
    requires a != ZERO && c != ZERO && h2(c, c) != ZERO && a != h2(c, c)
    ensures var t := Parsed(MerkleBlock(5, [a, c, x, x], EXAMPLE_FLAGS));
         Rejected(h2, t) && Root(h2, t) == h2(a, h2(c, c)) && Matches(t) == [x, x]
  {
    var bits, hashes := Bits(EXAMPLE_FLAGS), [a, c, x, x];
    ExampleBits();
    assert Height(5) == 3;
    assert Read(bits, hashes, 2, 5, 0) == (Match(x), 3, 6) && Read(bits, hashes, 3, 6, 0) == (Match(x), 4, 7);
    var twice := Fork(Match(x), Match(x));
    assert Read(bits, hashes, 2, 4, 1) == (twice, 4, 7);
    assert Read(bits, hashes, 1, 3, 1) == (Stub(c), 2, 4);
    assert Read(bits, hashes, 1, 2, 2) == (Fork(Stub(c), twice), 4, 7);
    assert Read(bits, hashes, 0, 1, 2) == (Stub(a), 1, 2);
    assert Evaluate(h2, twice) == (ZERO, true);
    assert Evaluate(h2, Fork(Stub(c), twice)) == (h2(c, c), true);
    assert Matches(Match(x)) == [x] && Matches(twice) == [x] + [x];
    assert Matches(Stub(c)) == [] && Matches(Fork(Stub(c), twice)) == [] + ([x] + [x]);
    assert Matches(Stub(a)) == [];
  }
}
