/** The BIP37 partial Merkle tree encoding ("Partial Merkle branch format"), and the proof that the
    decoder of MerkleProof undoes it. */
module MerkleEncoding {
  import opened Blocks
  import opened MerkleProof

  // ---- The full tree, row by row

  /** Each pair of a row is hashed together; the last node of an odd row is paired with itself. */
  function NextRow(h2: (Hash, Hash) -> Hash, row: seq<Hash>): (r: seq<Hash>)
    ensures |r| == (|row| + 1) / 2
  {
    if row == [] then [] else
      [h2(row[0], if |row| == 1 then row[0] else row[1])] + if |row| == 1 then [] else NextRow(h2, row[2..])
  }

  function MerkleRoot(h2: (Hash, Hash) -> Hash, row: seq<Hash>): Hash
    requires row != []
    decreases |row|
  {
    if |row| == 1 then row[0] else MerkleRoot(h2, NextRow(h2, row))
  }

  /** The same tree with its structure kept; Single is the last node of an odd row. */
  datatype Tree = Leaf(txid: Hash, matched: bool) | Node(left: Tree, right: Tree) | Single(child: Tree)

  function FullRoot(h2: (Hash, Hash) -> Hash, t: Tree): Hash {
    match t
    case Leaf(txid, _) => txid
    case Node(l, r) => h2(FullRoot(h2, l), FullRoot(h2, r))
    case Single(c) => h2(FullRoot(h2, c), FullRoot(h2, c))
  }

  function AnyMatch(t: Tree): bool {
    match t
    case Leaf(_, matched) => matched
    case Node(l, r) => AnyMatch(l) || AnyMatch(r)
    case Single(c) => AnyMatch(c)
  }

  function Matched(t: Tree): seq<Hash> {
    match t
    case Leaf(txid, matched) => if matched then [txid] else []
    case Node(l, r) => Matched(l) + Matched(r)
    case Single(c) => Matched(c)
  }

  /** All leaves h rows down; if full, no node is missing a right child, otherwise only nodes on the
      right edge are. */
  ghost predicate Shaped(t: Tree, h: nat, full: bool) {
    match t
    case Leaf(_, _) => h == 0
    case Node(l, r) => h > 0 && Shaped(l, h - 1, true) && Shaped(r, h - 1, full)
    case Single(c) => h > 0 && !full && Shaped(c, h - 1, false)
  }

  // ---- The encoder: a depth-first walk that emits flags and hashes

  function Flags(t: Tree): (flags: seq<bool>)
    ensures flags != []
  {
    if t.Leaf? || !AnyMatch(t) then [AnyMatch(t)] else
      match t
      case Node(l, r) => [true] + Flags(l) + Flags(r)
      case Single(c) => [true] + Flags(c)
  }

  function Hashes(h2: (Hash, Hash) -> Hash, t: Tree): (hashes: seq<Hash>)
    ensures hashes != []
  {
    if t.Leaf? || !AnyMatch(t) then [FullRoot(h2, t)] else
      match t
      case Node(l, r) => Hashes(h2, l) + Hashes(h2, r)
      case Single(c) => Hashes(h2, c)
  }

  function On(bits: seq<bool>, i: nat, mask: bv8): bv8 {
    if i < |bits| && bits[i] then mask else 0
  }

  function ByteAt(bits: seq<bool>, i: nat): bv8 {
    On(bits, i, 1) | On(bits, i + 1, 2) | On(bits, i + 2, 4) | On(bits, i + 3, 8)
    | On(bits, i + 4, 16) | On(bits, i + 5, 32) | On(bits, i + 6, 64) | On(bits, i + 7, 128)
  }

  /** Flags packed little-endian into bytes, the last byte padded with zeros. */
  function PackFlags(bits: seq<bool>): seq<bv8> {
    seq((|bits| + 7) / 8, k requires k >= 0 => ByteAt(bits, 8 * k))
  }

  lemma PackedBit(bits: seq<bool>, i: nat)
    requires i < |bits|
    ensures i / 8 < |PackFlags(bits)| && FlagBit(PackFlags(bits), i) == bits[i]
  {
    var k, r := i / 8, i % 8;
    assert PackFlags(bits)[k] == ByteAt(bits, 8 * k) && i == 8 * k + r;
    hide ByteAt;
    var m := Mask(r);
    ByteBit(bits, 8 * k, r, m);
  }

  lemma ByteBit(bits: seq<bool>, j: nat, r: nat, m: bv8)
    requires r < 8 && m == [1, 2, 4, 8, 16, 32, 64, 128][r]
    ensures ByteAt(bits, j) & m == On(bits, j + r, m)
  {
    OneBit(On(bits, j, 1), On(bits, j + 1, 2), On(bits, j + 2, 4), On(bits, j + 3, 8),
           On(bits, j + 4, 16), On(bits, j + 5, 32), On(bits, j + 6, 64), On(bits, j + 7, 128));
    hide On;
    if r == 0 {} else if r == 1 {} else if r == 2 {} else if r == 3 {} else if r == 4 {} else if r == 5 {} else if r == 6 {} else {}
  }

  lemma PackedBits(bits: seq<bool>)
    ensures |bits| <= |Bits(PackFlags(bits))| && Bits(PackFlags(bits))[..|bits|] == bits
  {
    forall i | 0 <= i < |bits| ensures Bits(PackFlags(bits))[i] == bits[i] { PackedBit(bits, i); }
  }

  lemma Mask(r: nat) returns (m: bv8)
    requires r < 8
    ensures (1 as bv8) << r == m && m == [1, 2, 4, 8, 16, 32, 64, 128][r] && m != 0
  {
    m := (1 as bv8) << r;
    if r == 0 {} else if r == 1 {} else if r == 2 {} else if r == 3 {} else if r == 4 {} else if r == 5 {} else if r == 6 {} else {}
  }

  lemma OneBit(b0: bv8, b1: bv8, b2: bv8, b3: bv8, b4: bv8, b5: bv8, b6: bv8, b7: bv8)
    requires b0 & 1 == b0 && b1 & 2 == b1 && b2 & 4 == b2 && b3 & 8 == b3
    requires b4 & 16 == b4 && b5 & 32 == b5 && b6 & 64 == b6 && b7 & 128 == b7
    ensures var x := b0 | b1 | b2 | b3 | b4 | b5 | b6 | b7;
         && x & 1 == b0 && x & 2 == b1 && x & 4 == b2 && x & 8 == b3
         && x & 16 == b4 && x & 32 == b5 && x & 64 == b6 && x & 128 == b7
  {}

  // ---- Decoding an encoded tree

  /** The parse that the decoder should arrive at. */
  function Expected(h2: (Hash, Hash) -> Hash, t: Tree): Branch {
    if t.Leaf? && t.matched then Match(t.txid)
    else if t.Leaf? || !AnyMatch(t) then Stub(FullRoot(h2, t))
    else match t
      case Node(l, r) => Fork(Expected(h2, l), Expected(h2, r))
      case Single(c) => Fork(Expected(h2, c), Missing)
  }

  /** part is what s holds from index i on. */
  ghost predicate At<T>(s: seq<T>, i: nat, part: seq<T>) {
    i + |part| <= |s| && s[i..i + |part|] == part
  }

  lemma AtSplit<T>(s: seq<T>, i: nat, x: seq<T>, y: seq<T>)
    requires At(s, i, x + y)
    ensures At(s, i, x) && At(s, i + |x|, y)
  {
    var part := s[i..i + |x + y|];
    assert s[i..i + |x|] == part[..|x|];
    assert s[i + |x|..i + |x| + |y|] == part[|x|..];
  }

  lemma AtHead<T>(s: seq<T>, i: nat, part: seq<T>)
    requires At(s, i, part) && part != []
    ensures i < |s| && s[i] == part[0]
  {
    assert s[i..i + |part|][0] == s[i];
  }

  /** The encoding of t is what bits and hashes hold from the cursors on; one with a missing right
      child must come last, since the decoder notices it by running out of hashes. */
  ghost predicate EncodedAt(bits: seq<bool>, hashes: seq<Hash>, h2: (Hash, Hash) -> Hash, t: Tree, full: bool, hashIdx: nat, flagIdx: nat) {
    && At(bits, flagIdx, Flags(t)) && At(hashes, hashIdx, Hashes(h2, t))
    && (!full ==> hashIdx + |Hashes(h2, t)| == |hashes|)
  }

  lemma LeafParts(bits: seq<bool>, hashes: seq<Hash>, h2: (Hash, Hash) -> Hash, t: Tree, full: bool, h: nat, hashIdx: nat, flagIdx: nat)
    requires EncodedAt(bits, hashes, h2, t, full, hashIdx, flagIdx) && (t.Leaf? || !AnyMatch(t)) && (t.Leaf? ==> h == 0)
    ensures Read(bits, hashes, hashIdx, flagIdx, h) == (Expected(h2, t), hashIdx + 1, flagIdx + 1)
  {
    AtHead(bits, flagIdx, Flags(t));
    AtHead(hashes, hashIdx, Hashes(h2, t));
  }

  lemma NodeFlags(bits: seq<bool>, l: Tree, r: Tree, flagIdx: nat)
    requires AnyMatch(Node(l, r)) && At(bits, flagIdx, Flags(Node(l, r)))
    ensures flagIdx < |bits| && bits[flagIdx]
    ensures At(bits, flagIdx + 1, Flags(l)) && At(bits, flagIdx + 1 + |Flags(l)|, Flags(r))
  {
    AtHead(bits, flagIdx, Flags(Node(l, r)));
    AtSplit(bits, flagIdx, [true] + Flags(l), Flags(r));
    AtSplit(bits, flagIdx, [true], Flags(l));
  }

  lemma NodeParts(bits: seq<bool>, hashes: seq<Hash>, h2: (Hash, Hash) -> Hash, l: Tree, r: Tree, full: bool, hashIdx: nat, flagIdx: nat)
    requires AnyMatch(Node(l, r)) && EncodedAt(bits, hashes, h2, Node(l, r), full, hashIdx, flagIdx)
    ensures flagIdx < |bits| && bits[flagIdx] && hashIdx < |hashes|
    ensures EncodedAt(bits, hashes, h2, l, true, hashIdx, flagIdx + 1)
    ensures EncodedAt(bits, hashes, h2, r, full, hashIdx + |Hashes(h2, l)|, flagIdx + 1 + |Flags(l)|)
  {
    NodeFlags(bits, l, r, flagIdx);
    AtSplit(hashes, hashIdx, Hashes(h2, l), Hashes(h2, r));
  }

  lemma SingleParts(bits: seq<bool>, hashes: seq<Hash>, h2: (Hash, Hash) -> Hash, c: Tree, hashIdx: nat, flagIdx: nat)
    requires AnyMatch(c) && EncodedAt(bits, hashes, h2, Single(c), false, hashIdx, flagIdx)
    ensures flagIdx < |bits| && bits[flagIdx] && hashIdx < |hashes|
    ensures EncodedAt(bits, hashes, h2, c, false, hashIdx, flagIdx + 1)
  {
    AtHead(bits, flagIdx, Flags(Single(c)));
    AtSplit(bits, flagIdx, [true], Flags(c));
  }

  /** Reading an encoded tree gives back its structure and stops right behind it. */
  lemma {:induction false} ReadEncoded(bits: seq<bool>, hashes: seq<Hash>, h2: (Hash, Hash) -> Hash, t: Tree, h: nat, full: bool,
                                       hashIdx: nat, flagIdx: nat)
    requires Shaped(t, h, full) && EncodedAt(bits, hashes, h2, t, full, hashIdx, flagIdx)
    ensures Read(bits, hashes, hashIdx, flagIdx, h) == (Expected(h2, t), hashIdx + |Hashes(h2, t)|, flagIdx + |Flags(t)|)
    decreases t, 1
  {
    if t.Leaf? || !AnyMatch(t) {
      LeafParts(bits, hashes, h2, t, full, h, hashIdx, flagIdx);
    } else if t.Single? {
      SingleParts(bits, hashes, h2, t.child, hashIdx, flagIdx);
      ReadEncoded(bits, hashes, h2, t.child, h - 1, false, hashIdx, flagIdx + 1);
    } else {
      ReadEncodedNode(bits, hashes, h2, t.left, t.right, h, full, hashIdx, flagIdx);
    }
  }

  lemma ReadFork(bits: seq<bool>, hashes: seq<Hash>, hashIdx: nat, flagIdx: nat, h: nat, left: Branch, right: Branch,
                 hl: nat, fl: nat, hr: nat, fr: nat)
    requires h > 0 && hashIdx < |hashes| && flagIdx < |bits| && bits[flagIdx]
    requires Read(bits, hashes, hashIdx, flagIdx + 1, h - 1) == (left, hashIdx + hl, flagIdx + 1 + fl)
    requires Read(bits, hashes, hashIdx + hl, flagIdx + 1 + fl, h - 1) == (right, hashIdx + hl + hr, flagIdx + 1 + fl + fr)
    ensures Read(bits, hashes, hashIdx, flagIdx, h) == (Fork(left, right), hashIdx + (hl + hr), flagIdx + (1 + fl + fr))
  {}

  lemma NodeEncoding(h2: (Hash, Hash) -> Hash, l: Tree, r: Tree, h: nat, full: bool)
    requires AnyMatch(Node(l, r)) && Shaped(Node(l, r), h, full)
    ensures h > 0 && Shaped(l, h - 1, true) && Shaped(r, h - 1, full)
    ensures |Hashes(h2, Node(l, r))| == |Hashes(h2, l)| + |Hashes(h2, r)| && |Flags(Node(l, r))| == 1 + |Flags(l)| + |Flags(r)|
    ensures Expected(h2, Node(l, r)) == Fork(Expected(h2, l), Expected(h2, r))
  {}

  lemma {:induction false} ReadEncodedNode(bits: seq<bool>, hashes: seq<Hash>, h2: (Hash, Hash) -> Hash, l: Tree, r: Tree, h: nat, full: bool,
                                           hashIdx: nat, flagIdx: nat)
    requires var t := Node(l, r); AnyMatch(t) && Shaped(t, h, full) && EncodedAt(bits, hashes, h2, t, full, hashIdx, flagIdx)
    ensures var t := Node(l, r);
         Read(bits, hashes, hashIdx, flagIdx, h) == (Expected(h2, t), hashIdx + |Hashes(h2, t)|, flagIdx + |Flags(t)|)
    decreases Node(l, r), 0
  {
    hide *;
    NodeEncoding(h2, l, r, h, full);
    NodeParts(bits, hashes, h2, l, r, full, hashIdx, flagIdx);
    ReadEncoded(bits, hashes, h2, l, h - 1, true, hashIdx, flagIdx + 1);
    ReadEncoded(bits, hashes, h2, r, h - 1, full, hashIdx + |Hashes(h2, l)|, flagIdx + 1 + |Flags(l)|);
    ReadFork(bits, hashes, hashIdx, flagIdx, h, Expected(h2, l), Expected(h2, r),
             |Hashes(h2, l)|, |Flags(l)|, |Hashes(h2, r)|, |Flags(r)|);
  }

  ghost predicate NonZero(h2: (Hash, Hash) -> Hash, t: Tree) {
    && (forall x, y :: h2(x, y) != ZERO)
    && (match t
        case Leaf(txid, _) => txid != ZERO
        case Node(l, r) => NonZero(h2, l) && NonZero(h2, r)
        case Single(c) => NonZero(h2, c))
  }

  /** No two siblings that the encoding opens up have the same hash. */
  ghost predicate DistinctSiblings(h2: (Hash, Hash) -> Hash, t: Tree) {
    match t
    case Leaf(_, _) => true
    case Node(l, r) => (AnyMatch(t) ==> FullRoot(h2, l) != FullRoot(h2, r)) && DistinctSiblings(h2, l) && DistinctSiblings(h2, r)
    case Single(c) => DistinctSiblings(h2, c)
  }

  lemma {:induction false} ExpectedEvaluates(h2: (Hash, Hash) -> Hash, t: Tree)
    requires NonZero(h2, t) && DistinctSiblings(h2, t)
    ensures Evaluate(h2, Expected(h2, t)) == (FullRoot(h2, t), false) && FullRoot(h2, t) != ZERO
  {
    match t
    case Leaf(_, _) =>
    case Node(l, r) =>
      ExpectedEvaluates(h2, l);
      ExpectedEvaluates(h2, r);
    case Single(c) =>
      ExpectedEvaluates(h2, c);
  }

  lemma {:induction false} ExpectedMatches(h2: (Hash, Hash) -> Hash, t: Tree)
    ensures Matches(Expected(h2, t)) == Matched(t)
    ensures !AnyMatch(t) ==> Matched(t) == []
  {
    match t
    case Leaf(_, _) =>
    case Node(l, r) =>
      ExpectedMatches(h2, l);
      ExpectedMatches(h2, r);
    case Single(c) =>
      ExpectedMatches(h2, c);
  }

  // ---- From a list of transactions

  function Leaves(txids: seq<Hash>, matched: seq<bool>): seq<Tree>
    requires |txids| == |matched|
  {
    seq(|txids|, i requires 0 <= i < |txids| => Leaf(txids[i], matched[i]))
  }

  function PairUp(row: seq<Tree>): (r: seq<Tree>)
    ensures |r| == (|row| + 1) / 2
  {
    if row == [] then [] else
      [if |row| == 1 then Single(row[0]) else Node(row[0], row[1])] + if |row| == 1 then [] else PairUp(row[2..])
  }

  function Build(row: seq<Tree>): Tree
    requires row != []
    decreases |row|
  {
    if |row| == 1 then row[0] else Build(PairUp(row))
  }

  function Encode(h2: (Hash, Hash) -> Hash, txids: seq<Hash>, matched: seq<bool>): MerkleBlock
    requires |txids| == |matched| > 0
  {
    var t := Build(Leaves(txids, matched));
    MerkleBlock(|txids|, Hashes(h2, t), PackFlags(Flags(t)))
  }

  function Selected(txids: seq<Hash>, matched: seq<bool>): seq<Hash>
    requires |txids| == |matched|
  {
    if txids == [] then [] else (if matched[0] then [txids[0]] else []) + Selected(txids[1..], matched[1..])
  }

  function Roots(h2: (Hash, Hash) -> Hash, row: seq<Tree>): seq<Hash> {
    seq(|row|, i requires 0 <= i < |row| => FullRoot(h2, row[i]))
  }

  function RowMatched(row: seq<Tree>): seq<Hash> {
    if row == [] then [] else Matched(row[0]) + RowMatched(row[1..])
  }

  ghost predicate RowShaped(row: seq<Tree>, h: nat) {
    forall i :: 0 <= i < |row| ==> Shaped(row[i], h, i + 1 < |row|)
  }

  lemma {:induction false} PairUpShaped(row: seq<Tree>, h: nat)
    requires RowShaped(row, h)
    ensures RowShaped(PairUp(row), h + 1)
  {
    if |row| >= 2 {
      var rest := row[2..];
      forall i | 0 <= i < |rest| ensures Shaped(rest[i], h, i + 1 < |rest|) { assert rest[i] == row[i + 2]; }
      PairUpShaped(rest, h);
      FullIsShaped(row[1], h);
      forall i | 0 <= i < |PairUp(row)| ensures Shaped(PairUp(row)[i], h + 1, i + 1 < |PairUp(row)|) {
        if i > 0 { assert PairUp(row)[i] == PairUp(rest)[i - 1]; }
      }
    } else if |row| == 1 {
      FullIsShaped(row[0], h);
    }
  }

  lemma {:induction false} PairUpRoots(h2: (Hash, Hash) -> Hash, row: seq<Tree>)
    ensures Roots(h2, PairUp(row)) == NextRow(h2, Roots(h2, row))
  {
    if |row| >= 2 {
      PairUpRoots(h2, row[2..]);
      assert Roots(h2, row)[2..] == Roots(h2, row[2..]);
    }
  }

  lemma {:induction false} PairUpMatched(row: seq<Tree>)
    ensures RowMatched(PairUp(row)) == RowMatched(row)
  {
    if |row| == 1 {
      assert PairUp(row)[1..] == row[1..] == [];
    } else if |row| >= 2 {
      PairUpMatched(row[2..]);
      assert row[1..][1..] == row[2..] && PairUp(row)[1..] == PairUp(row[2..]);
    }
  }

  lemma {:induction false} FullIsShaped(t: Tree, h: nat)
    ensures Shaped(t, h, true) ==> Shaped(t, h, false)
    decreases t
  {
    if t.Node? && h > 0 { FullIsShaped(t.right, h - 1); }
  }

  lemma {:induction false} BuildRow(h2: (Hash, Hash) -> Hash, row: seq<Tree>, h: nat)
    requires row != [] && RowShaped(row, h)
    ensures Shaped(Build(row), h + Height(|row|), false)
    ensures FullRoot(h2, Build(row)) == MerkleRoot(h2, Roots(h2, row))
    ensures Matched(Build(row)) == RowMatched(row)
    decreases |row|
  {
    if |row| > 1 {
      PairUpShaped(row, h);
      PairUpRoots(h2, row);
      PairUpMatched(row);
      BuildRow(h2, PairUp(row), h + 1);
    } else {
      assert row[1..] == [];
    }
  }

  lemma {:induction false} LeavesMatched(txids: seq<Hash>, matched: seq<bool>)
    requires |txids| == |matched|
    ensures RowMatched(Leaves(txids, matched)) == Selected(txids, matched)
  {
    if txids != [] {
      assert Leaves(txids, matched)[1..] == Leaves(txids[1..], matched[1..]);
      LeavesMatched(txids[1..], matched[1..]);
    }
  }

  /** For every non-empty list of txids and every choice of matches, the encoded block reads back as
      the tree it came from: the computed root is the full Merkle root, the matched txids come back
      in order, and every hash is consumed. */
  lemma Completeness(h2: (Hash, Hash) -> Hash, txids: seq<Hash>, matched: seq<bool>)
    requires |txids| == |matched| > 0
    requires var t := Build(Leaves(txids, matched)); NonZero(h2, t) && DistinctSiblings(h2, t)
    ensures var b := Encode(h2, txids, matched);
            var (t, hashIdx, flagIdx) := Read(Bits(b.flags), b.hashes, 0, 0, Height(b.totalTx));
         && Root(h2, t) == MerkleRoot(h2, txids) && !Rejected(h2, t)
         && Matches(t) == Selected(txids, matched)
         && hashIdx == |b.hashes| && (flagIdx + 7) / 8 == |b.flags|
  {
    var b := Encode(h2, txids, matched);
    var row := Leaves(txids, matched);
    var t := Build(row);
    BuildRow(h2, row, 0);
    assert Roots(h2, row) == txids;
    LeavesMatched(txids, matched);
    PackedBits(Flags(t));
    assert b.hashes[0..|b.hashes|] == b.hashes;
    ReadEncoded(Bits(b.flags), b.hashes, h2, t, Height(|txids|), false, 0, 0);
    ExpectedEvaluates(h2, t);
    ExpectedMatches(h2, t);
  }
}
