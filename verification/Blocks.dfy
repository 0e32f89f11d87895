/** Block headers as the chain code sees them (core/bitcoin/BRMerkleBlock.h). */
module Blocks {

  datatype Option<+T> = None | Some(value: T)

  /** A 256-bit hash; zero is UINT256_ZERO. */
  type Hash = nat

  function Elements<T>(s: seq<T>): set<T> { set x | x in s }

  const ZERO: Hash := 0
  const DIFFICULTY_INTERVAL: nat := 2016
  const BLOCK_UNKNOWN_HEIGHT: nat := 0x7fff_ffff

  /** txHashes are the matched transaction ids that the merkle block proves. */
  datatype Block = Block(
    hash: Hash,
    prev: Hash,
    height: nat,
    timestamp: nat,
    target: nat,
    totalTx: nat,
    txHashes: seq<Hash>)
}
