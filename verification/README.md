# Verified model of the wallet core

A Dafny 4.11 model of the hard parts of breadwallet-core: the wallet's transaction ledger, the header
chain, the partial Merkle tree decoder, the difficulty retarget, the base58, Bech32 and transaction
codecs, coin selection, and the per-peer collection of merkleblocks. Code that changes things step by
step is modelled as methods and classes with loops and mutable fields; each is proved against
specification functions, about which the lemmas are stated. `dafny verify dfyconfig.toml` checks
everything.

| files | what they model |
|---|---|
| `Positional`, `Bitwise`, `Blocks`, `TxLimits` | numbers in a base, bit operations as arithmetic, block headers, constants |
| `Base58` | the base58 codec with its two tight buffers |
| `Bech32Checksum`, `Bech32Field`, `Bech32Groups`, `Bech32` | the BIP173 checksum, what it computes over GF(32), the 8-to-5 bit regrouping, the address codec |
| `VarInt`, `TxCodec`, `TxSerializer`, `TxParser`, `TxSize`, `TxReparse` | the transaction wire format of BIP144, its sizes and its round trips |
| `MerkleProof`, `MerkleEncoding` | the two recursive walks of a partial Merkle tree (BIP37) and the encoder they undo |
| `Difficulty` | the compact-target retarget and the acceptance rule |
| `ChainModel`, `Reorg`, `Restore`, `Relay`, `PeerManager` | stored headers, reorganisation, save and restore, the relay of blocks as functions of the state, and the manager that computes them |
| `Ledger`, `TxOrder`, `AddressChain`, `Wallet` | what the balance recomputation means, the sorted list and dependencies, gap-limit chains, the wallet's operations |
| `CoinSelection`, `Spending` | choosing inputs, fee and change for requested outputs, and what that spends of the wallet's tally |
| `PeerCollect` | holding a merkleblock back until its transactions have arrived |

How the model reads the source:

- Each callback that runs under a lock is one atomic step. `BRSet` is a set or a map keyed as its
  constructor says, `BRArray` a sequence, or an array where the source works in place.
- Hash functions, key derivation and script recognition are parameters. Lemmas name what they need of
  them: a pair hash that is never zero, derived keys that do not repeat.
- For the chain, a hash determines its block's parent and height (`Lawful`, `Genuine`): no two
  different genuine headers share a hash. No relayed block names a stored block above lastBlock as its
  parent, that is, a later checkpoint before the chain has reached it (`ReachedParent`). Checkpoints
  above lastBlock are left out of the claim that lastBlock is the highest block.
- Transaction ancestry is acyclic (`rank`), and amounts, sizes and offsets do not exceed 64 bits, so
  their sums are natural numbers. Where the source truncates, the model does: byte stores, five-bit
  groups, compact targets.
- A failed assertion of the source that can be reached is an outcome (`Aborted`). `Relay.StoreOutcome`
  says exactly when: a block that is stored already is below the lowest stored block of the main chain,
  or the two sides of a reorganisation have no stored block in common and the fork's side ends no lower.
- What saveBlocks keeps follows its documentation: more than one block replace what was saved, a single one
  is added (`Restore.Kept`).
- Clocks, random draws and whether an array moved on growth are parameters or free choices.

Where the code does less than its surroundings suggest, the model follows the code:

- The retarget is not exact for every target the compact format can hold. `UncappedExact` gives the
  exact condition and `RetargetInexactExample` an input that fails it.
- With a target of few bits the cap can still give the right limit; `RetargetExact` has the condition.
- A relayed block can fail an assertion: `PeerManager.AbortExample` is a run that does.
- When the fork's side of a reorganisation goes on below the stored main chain, the code un-confirms the
  transactions of the old chain and does not look for them on the new one (`Relay.NewHeight`,
  `PeerManager.NoJoinExample`). When it does not go on below, an assertion fails
  (`PeerManager.StuckExample`).
- The Bech32 encoder's length check counts program bytes, not symbols. It accepts programs whose address
  is longer than 90 characters, and then writes past the end of its `char addr[91]`;
  `Bech32.DecodeEncode` says exactly which addresses decode, `Bech32.Encode` which ones are too long.
  It also accepts an empty prefix, with which no address decodes.
- `BRTransactionSize` counts one byte per witness count, so it is too small when a stack has 253 items
  or more (`TxSize.SizeIsLength`, `TxSize.ManyItemsExample`).
- 34 bytes are set aside for a change output. A 25-byte change script at 252 requested outputs takes 36,
  since the output count then gets two bytes longer, and the fee may fall short
  (`CoinSelection.FeeSufficientIff`, `CoinSelection.FeeShortExample`). Such a change script is that of a
  b-cash wallet; a main-chain wallet's has 22 bytes and fits (`CoinSelection.ChangeSizes`).
- Some unspent outputs may already be spent by pending transactions at the end of the list, since they
  are purged only when a later transaction is accepted. `Ledger.UtxosExactIff` says when,
  `Ledger.UtxosInexactExample` gives a list.
- The balance is computed before the address gaps are refilled, so outputs to keys that come only then
  are missed until the next time (`Wallet.RegisterTransaction`, `Ledger.TallyWithMoreKeys`); a new wallet
  that is paid at external keys 9 and 10 at once misses the second (`Wallet.LateKeyExample`).
- `BRMerkleBlockIsValid` compares the root and does not look at the hash cursor, which the reject branch
  sets; without it a valid block may list hashes that are not proved (`MerkleProof.RejectedNodeExample`).
- The guard on inv messages asks whether getblocks was sent, which nothing ever notes; the model's guard is
  the rest of it (`PeerCollect.InvRefused`).
- `BRWalletNew` lists stored transactions without asking whether they are the wallet's, except the first.
- `BRWalletRemoveTransaction` takes transactions out of the list but leaves them in `allTx`.

## Model

| member | source | states |
|---|---|---|
| MerkleEncoding.Completeness | core/bitcoin/BRMerkleBlock.c:185-264 | for every non-empty txid list and every choice of matches, with non-zero hashes and no equal siblings among opened nodes, the BIP37 encoding decodes without rejection to the full Merkle root with odd rows padded by their last node, to exactly the matched txids in order, and uses up all hashes and all flag bytes |
| MerkleProof.ReportedTxIsProved | core/bitcoin/BRMerkleBlock.c:185-264 | if no node takes the reject branch, which the hash cursor after the root walk tells, every reported txid starts a chain of exactly as many pair hashes as the tree is high that ends in the computed root |
| MerkleProof.RootIsValid | core/bitcoin/BRMerkleBlock.c:269-281 | accepts exactly a block whose computed root is the stated one, or without transactions; if the cursor does not bear the mark of the reject branch, acceptance proves a path from every listed txid to the stated root |
| MerkleProof.RejectedNodeExample | core/bitcoin/BRMerkleBlock.c:241-281 | without looking at that mark the claim fails: a block of five announced transactions whose root is that of three, and whose two listed hashes are no part of it |
| MerkleProof.MatchHasPath | core/bitcoin/BRMerkleBlock.c:241-264 | constructs that chain, below any node of any block |
| MerkleProof.HeightIsRoundedLog | core/bitcoin/BRMerkleBlock.c:37-43 | the number of pairings down to one node is the floor of the logarithm, plus one exactly when clearing the lowest set bit leaves something |
| MerkleProof.CeilLog2 | core/bitcoin/BRMerkleBlock.c:37-43 | the shift loop plus the rounding term is the height of the tree |
| MerkleProof.Walk.RootR | core/bitcoin/BRMerkleBlock.c:241-264 | the recursive root walk with shared cursors returns the value of the node that an independent parse finds, and leaves the cursors where that parse ends or, after a rejection, past the last hash |
| MerkleProof.Walk.TxHashesR | core/bitcoin/BRMerkleBlock.c:185-209 | the recursive txid walk reads the same node and appends exactly its matches, up to the given room |
| MerkleProof.TxHashes | core/bitcoin/BRMerkleBlock.c:213-220 | the listing of a block is the prefix of its matches that fits |
| MerkleEncoding.PackedBit | core/bitcoin/BRMerkleBlock.c:191-191 | flag i is found again in bit i mod 8 of byte i/8 |
| MerkleEncoding.ReadEncoded | core/bitcoin/BRMerkleBlock.c:185-264 | an encoded subtree anywhere in a block reads back as that subtree, with both cursors just behind it |
| Difficulty.UncappedExact | core/bitcoin/BRMerkleBlock.c:338-355 | for every previous target of at least four bytes, the multiply, divide and normalise loop gives the canonical compact form of floor(target * clamped timespan / two weeks) if and only if the scaled mantissa keeps sixteen bits |
| Difficulty.RetargetExact | core/bitcoin/BRMerkleBlock.c:338-357 | with the cap, the result is the canonical form of the smaller of the scaled value and the proof-of-work limit if and only if the scaled mantissa keeps sixteen bits or the scaled value reaches that limit |
| Difficulty.NormalisedTargetsKeepPrecision | core/bitcoin/BRMerkleBlock.c:338-355 | every mantissa of at least 0x200, so every one in 0x8000..0x7fffff, meets the condition |
| Difficulty.RetargetInexactExample | core/bitcoin/BRMerkleBlock.c:338-355 | a four-byte target with mantissa 1 gets a value that is not the canonical form |
| Difficulty.NormalMonotone | core/bitcoin/BRMerkleBlock.c:357-357 | comparing two normalised compact integers is comparing the numbers they denote |
| Difficulty.Retarget | core/bitcoin/BRMerkleBlock.c:338-357 | the loop, including its size adjustment, computes the retarget function |
| Difficulty.VerifyDifficulty | core/bitcoin/BRMerkleBlock.c:326-363 | accepts a block exactly when parent hash and height follow and the target is the retargeted one at a transition, the parent's otherwise |
| Difficulty.TransitionTargetIsExact | core/bitcoin/BRMerkleBlock.c:326-363 | an accepted transition block carries the target of the exact rule |
| Difficulty.ScaledIsClamped | core/bitcoin/BRMerkleBlock.c:341-343 | bounding the timespan to half a week and eight weeks is bounding the scaled value to a quarter and four times the old one, which is how the exact rule puts it |
| Difficulty.RetargetMonotone | core/bitcoin/BRMerkleBlock.c:338-357 | for every previous target, a longer interval never makes the next target harder |
| Difficulty.RetargetSaturates | core/bitcoin/BRMerkleBlock.c:341-343 | eight weeks and more give one target, half a week and less another |
| Base58.DecodeEncode | core/support/BRBase58.c:36-142 | decoding undoes encoding for every byte string, leading zeros included |
| Base58.EncodeDecode | core/support/BRBase58.c:36-142 | encoding undoes decoding for every string of base58 digits |
| Base58.EncodeBufferSuffices | core/support/BRBase58.c:44-58 | n bytes fit in n*138/100 + 1 base58 digits |
| Base58.DecodeBufferSuffices | core/support/BRBase58.c:82-130 | m base58 digits fit in m*733/1000 + 1 bytes |
| Base58.MulAdd58 | core/support/BRBase58.c:51-55 | the inner loop multiplies the number in the buffer by 256 and adds the byte, and ends with carry zero whenever the result fits |
| Base58.MulAdd256 | core/support/BRBase58.c:123-127 | the inner loop multiplies the number in the buffer by 58 and adds the digit, and ends with carry zero whenever the result fits |
| Base58.AccumulateBytes | core/support/BRBase58.c:48-58 | the outer loop leaves the number of the bytes in the tight buffer |
| Base58.AccumulateDigits | core/support/BRBase58.c:86-130 | the outer loop leaves the number of the digits in the tight buffer |
| Base58.Encode | core/support/BRBase58.c:36-72 | the whole encoder is the change of base that keeps leading zeros one for one |
| Base58.AlphabetIs | core/support/BRBase58.c:38-38 | the table rises with the character codes and has the digits and letters without 0, O, I and l |
| Base58.Decode | core/support/BRBase58.c:75-142 | the whole decoder is the inverse change of base of the digits up to the first character that is not one |
| Bech32Checksum.ChecksumCompletes | core/support/BRBech32.c:138-140 | for symbol sequences of any length the six computed symbols bring the running polymod to 1 |
| Bech32Checksum.PolymodAdds | core/support/BRBech32.c:37-39 | a polymod step is linear over exclusive or in everything below the symbol it shifts out |
| Bech32Checksum.PolymodBound | core/support/BRBech32.c:37-39 | a polymod step stays within 30 bits |
| Bech32Field.PolymodMultiplies | core/support/BRBech32.c:37-39 | a step multiplies the word, as a polynomial over GF(32), by x modulo the generator polynomial of BIP173, with the field multiplication defined by itself |
| Bech32Field.BurstDetected | core/support/BRBech32.c:37-39 | two symbol sequences that differ only within six neighbouring places never have the same checksum |
| Bech32Groups.UnpackedPacked | core/support/BRBech32.c:66-95 | regrouping bytes to padded five-bit symbols and back gives the same bytes |
| Bech32.DecodeEncode | core/support/BRBech32.c:42-144 | for every prefix and program that the encoder accepts, decoding the address gives them back if and only if the prefix is not empty and the address fits in 90 characters |
| Bech32.ErrorDetected | core/support/BRBech32.c:42-97 | an address with one to six neighbouring characters behind the separator replaced, by any but a separator, does not decode unless only the case of letters changed |
| Bech32.LongAddressExample | core/support/BRBech32.c:122-142 | a 42-character prefix with a 40-byte program is accepted, has an address of 114 characters, and does not decode |
| Bech32.BodyExample | core/support/BRBech32.c:126-136 | the program of BIP173's first example is written with the characters of that example's address |
| Bech32.Encode | core/support/BRBech32.c:101-144 | the encoder accepts exactly valid prefixes and programs within its own length check, writes prefix, separator, version, packed program and checksum, and goes beyond its array of 91 exactly when these are more than 90 characters |
| Bech32.Decode | core/support/BRBech32.c:42-97 | the decoder returns prefix and program exactly for well-formed strings with checksum 1, version at most 16 and 2 to 40 bytes; its 52-byte buffer is never exceeded |
| Bech32.EncodeProgram | core/support/BRBech32.c:129-136 | the shift loop over the program emits exactly its five-bit groups, the last one padded |
| Bech32.EncodeChecksum | core/support/BRBech32.c:138-140 | six bare steps, one flipped bit and six shifts give the checksum symbols |
| Bech32.Place | core/support/BRBech32.c:82-84 | one symbol is or-ed across a byte boundary so that the buffer again denotes the symbols read so far |
| Bech32.ReadSymbols | core/support/BRBech32.c:66-85 | the loop over the data part stops exactly at an invalid character and otherwise leaves checksum, version and buffer of all symbols |
| Bech32.FindSeparator | core/support/BRBech32.c:58-59 | the backward search ends at the last separator, or at zero |
| VarInt.DecodeEncode | core/support/BRAddress.c:39-104 | reading a written variable-length integer gives it back with its length, wherever the buffer holds it, over the whole 64-bit range |
| VarInt.LittleEndianIs | core/support/BRAddress.c:70-104 | the bytes read backwards are the base-256 digits of the number |
| VarInt.EncodedIs | core/support/BRAddress.c:70-104 | the shortest of the four forms is written, with its header and then the digits, lowest first |
| TxCodec.ParseSerialize | core/bitcoin/BRTransaction.c:264-494 | for signed transactions with well-formed witness stacks and signature scripts not shaped like payment scripts, parsing the serialization, whatever follows it, gives the transaction back; its id is the hash of the serialization without witnesses, its witness id the hash of the whole |
| TxCodec.LayoutExample | core/bitcoin/BRTransaction.c:351-494 | the order of the fields, on a transaction with a witness |
| TxCodec.SkipStack | core/bitcoin/BRTransaction.c:331-339 | the item count the serializer derives from a well-formed witness is the one that makes the parser consume it exactly |
| TxReparse.ParseSerializeParse | core/bitcoin/BRTransaction.c:396-502 | every buffer that parses as a signed transaction yields one that serializes and parses to the same transaction |
| TxReparse.SkippedIsStack | core/bitcoin/BRTransaction.c:458-470 | what the parser cuts out as a witness is always a well-formed stack |
| TxSerializer.Serialize | core/bitcoin/BRTransaction.c:264-351 | the serializer for a whole transaction, signed or not, writes the BIP144 form, with marker and flag exactly when some witness is non-empty |
| TxSerializer.SerializeInput | core/bitcoin/BRTransaction.c:111-131 | an input with its script and amount in place of a missing signature |
| TxSerializer.CountItems | core/bitcoin/BRTransaction.c:332-335 | walking the length prefixes counts the items |
| TxParser.Parse | core/bitcoin/BRTransaction.c:396-494 | the cursor parser accepts exactly the buffers that hold a complete transaction with at least one input, and hashes the slices it names |
| TxParser.ParseInput | core/bitcoin/BRTransaction.c:421-443 | one input, telling unsigned from signed by the shape of its script |
| TxParser.ParseWitnesses | core/bitcoin/BRTransaction.c:458-470 | the witnesses in order, updating the inputs in place |
| TxSize.SizeIsLength | core/bitcoin/BRTransaction.c:559-586 | for signed transactions the computed base size is the length without witnesses, and the computed size is the serialized length exactly when there is no witness or no stack has 253 items or more; it is never larger |
| TxSize.ManyItemsExample | core/bitcoin/BRTransaction.c:559-586 | a signed input with 253 or more empty witness items, for which the computed size is too small |
| TxSize.VirtualSizeIsWeight | core/bitcoin/BRTransaction.c:589-616 | the virtual size is three base sizes plus one total size over four, rounded up |
| TxSize.Size | core/bitcoin/BRTransaction.c:559-586 | the loop sums sizes and witness sizes, estimates for unsigned inputs included |
| TxSize.VSize | core/bitcoin/BRTransaction.c:589-616 | the same sums combined by weight |
| Ledger.UtxosExact | core/bitcoin/BRWallet.c:168-264 | after each accepted transaction the unspent outputs are exactly the wallet's outputs of the accepted transactions so far minus everything spent by accepted or pending ones so far |
| Ledger.UtxosExactIff | core/bitcoin/BRWallet.c:168-264 | at the end of any list that is so if and only if no pending transaction listed behind the last accepted one spends an output that was unspent after it |
| Ledger.UtxosInexactExample | core/bitcoin/BRWallet.c:208-254 | a confirmed payment and an unconfirmed replaceable spend of it: the output stays among the unspent ones although it is spent |
| Ledger.UtxosInvariant | core/bitcoin/BRWallet.c:168-264 | at every point the unspent outputs are received ones, once each, and none that is unspent is missing |
| Ledger.SetsExact | core/bitcoin/BRWallet.c:188-230 | the spent set is exactly what the transactions that are not invalid spend; invalid and pending are disjoint and listed |
| Ledger.BalanceIsNet | core/bitcoin/BRWallet.c:256-263 | the balance is totalReceived minus totalSent |
| Ledger.SentAndReceived | core/bitcoin/BRWallet.c:256-263 | totalSent is the sum of the falls of the balance history, and totalReceived of its rises |
| Ledger.HistoryExact | core/bitcoin/BRWallet.c:198-258 | the balance history records the balance after each transaction |
| Ledger.ConfirmedOrderIrrelevant | core/bitcoin/BRWallet.c:168-264 | for all-confirmed lists the final unspent outputs and balance depend only on which transactions are listed |
| Ledger.ConflictExclusion | core/bitcoin/BRWallet.c:188-206 | on a height-sorted list, two transactions that are not invalid and of which one is unconfirmed spend disjoint outputs |
| Ledger.VerdictInherited | core/bitcoin/BRWallet.c:188-230 | an unconfirmed child after an invalid parent is invalid, and after a pending parent invalid or pending |
| Ledger.VerdictStable | core/bitcoin/BRWallet.c:188-230 | verdicts on listed transactions do not change as the list goes on |
| Ledger.VerdictIs | core/bitcoin/BRWallet.c:188-230 | a listed transaction is invalid exactly when it is unconfirmed and spends a spent output or from an invalid one, and pending exactly when it is unconfirmed and valid but too large, pays dust, can be replaced, has a lock that is still on and an input that is not final, or spends from a pending one |
| Ledger.WaitingReleases | core/bitcoin/BRWallet.c:168-264 | with more blocks and at a later time the same transactions of a list are invalid, the same outputs are spent, and no transaction is pending that was not |
| Ledger.TallyWithMoreKeys | core/bitcoin/BRWallet.c:168-264 | a tally made with fewer wallet keys equals the one for more keys if and only if no accepted transaction pays one of the others |
| Wallet.Wallet.UpdateBalance | core/bitcoin/BRWallet.c:168-264 | the in-place recomputation leaves the tally of the whole list and its balance, never subtracting more than there is |
| Wallet.Wallet.PurgeSpent | core/bitcoin/BRWallet.c:248-254 | the backward loop removes exactly the spent outputs, each amount once |
| TxOrder.CompareRespectsHeight | core/bitcoin/BRWallet.c:98-129 | the partial comparator never puts a lower transaction after a higher one |
| TxOrder.AscendingIs | core/bitcoin/BRWallet.c:98-117 | of two transactions at the top height, as unconfirmed ones are, a must come after b exactly when it spends from b, directly or through known transactions of that height |
| TxOrder.UnrelatedByChain | core/bitcoin/BRWallet.c:119-130 | transactions that are not related are ordered by the last internal addresses they pay to, or external ones unless both pay to internal ones |
| TxOrder.InsertedSorted | core/bitcoin/BRWallet.c:132-144 | insertion keeps the list sorted by height and its elements, although the comparator is partial |
| TxOrder.InsertedBehindParents | core/bitcoin/BRWallet.c:132-144 | the inserted transaction stands behind every listed one that it spends from and that is not higher |
| TxOrder.InsertedBehindAncestor | core/bitcoin/BRWallet.c:132-144 | an unconfirmed one stands behind its listed ancestors of any degree |
| Wallet.Wallet.InsertTx | core/bitcoin/BRWallet.c:132-144 | insertion from the end is that insertion, and so leaves the transaction behind its parents |
| Wallet.Wallet.RegisterTransaction | core/bitcoin/BRWallet.c:756-797 | records exactly the signed transactions that are new and the wallet's own or unconfirmed, lists the own ones in order, fills the gaps and computes the tally for the keys known before; that is the tally for all keys if and only if no accepted transaction pays a key generated just now; a new unconfirmed transaction is invalid if it spends from a listed invalid one, and pending or invalid if from a pending one; the list stays orderly if and only if the new transaction is not below what it spends and not above its spenders |
| Wallet.Wallet.ContainsTx | core/bitcoin/BRWallet.c:147-166 | the two loops find exactly whether the transaction concerns the wallet |
| Wallet.SpenderConcerns | core/bitcoin/BRWallet.c:147-166 | a transaction that spends any unspent output of the wallet is the wallet's own |
| Wallet.StrangersDoNot | core/bitcoin/BRWallet.c:147-166 | a transaction that pays none of the wallet's keys and spends no known output that does is not the wallet's own |
| Wallet.LateKeyExample | core/bitcoin/BRWallet.c:756-797 | a registration after which the tally is not that of the whole list: a new wallet, and a confirmed transaction that pays external keys 9 and 10; the output to key 10 is missing from the unspent ones |
| Wallet.OrderAfterAdding | core/bitcoin/BRWallet.c:756-797 | the condition on the new transaction under which no listed transaction is below what it spends from, in both directions |
| Wallet.Wallet.TxUnconfirmedBefore | core/bitcoin/BRWallet.c:451-468 | returns, as the end of the list, exactly the transactions at or above the height |
| Wallet.Wallet.SetTxUnconfirmedAfter | core/bitcoin/BRWallet.c:1015-1036 | un-confirms exactly the transactions above the height, changes no other, recomputes exactly if there are any, and keeps an orderly list orderly |
| Wallet.Wallet.UpdateTransactions | core/bitcoin/BRWallet.c:973-1012 | sets exactly the given heights and timestamps, returns exactly the wallet's transactions that change, once each, drops exactly the foreign ones that get confirmed, keeps the list sorted, and recomputes the tally exactly if one that changes was pending or invalid, leaving it as it was otherwise; says when the list stays orderly |
| Wallet.OrderAfterSweep | core/bitcoin/BRWallet.c:973-1012 | an orderly list stays so if and only if, between a transaction that gets the height and a spender or parent that does not, the new height comes in order |
| Wallet.Wallet.RemoveTransaction | core/bitcoin/BRWallet.c:800-864 | on an orderly list it terminates and leaves the list without exactly the transaction and its transitive listed spenders, in the old order |
| Wallet.Wallet.RemoveSpenders | core/bitcoin/BRWallet.c:826-834 | the recursive calls on direct spenders remove only dependents, and all of the direct ones |
| TxOrder.ProgressDone | core/bitcoin/BRWallet.c:800-864 | once every direct spender is gone, nothing that depends on the transaction is left but itself |
| TxOrder.DependsAfterRemoval | core/bitcoin/BRWallet.c:800-864 | removing an upward closed set of dependents leaves the other dependencies as they were |
| Wallet.Wallet.UnusedAddrs | core/bitcoin/BRWallet.c:347-404 | returns the gap-limit entries just after the last used one, generates no more than needed, and keeps allPKH equal to both chains' entries whether or not the array moved |
| AddressChain.Extend | core/bitcoin/BRWallet.c:361-373 | the search ends because every used key is met at most once, with the gap filled or no further key to derive |
| AddressChain.FreshKey | core/bitcoin/BRWallet.c:364-373 | a newly derived key is not in the chain yet |
| Wallet.Wallet.constructor | core/bitcoin/BRWallet.c:268-316 | from any stored list: the signed transactions are listed once each, the first of equal ones, sorted by height although the address chains are still empty; both gaps are filled and the tally computed; the wallet is valid if and only if all of them concern it |
| Wallet.Wallet.New | core/bitcoin/BRWallet.c:268-316 | the wallet is given up exactly if its first stored transaction does not concern it |
| Wallet.FewerUsed | core/bitcoin/BRWallet.c:308-311 | the gaps filled for every key that the list mentions are still there for the keys the tally uses |
| ChainModel.TransitionFound | core/bitcoin/BRPeerManager.c:1096-1109 | whenever the invariant holds, a transition block extending lastBlock finds its previous transition 2016 blocks back |
| ChainModel.PruningKeepsInvariant | core/bitcoin/BRPeerManager.c:1111-1119 | freeing blocks below the last transition height keeps the invariant |
| ChainModel.StoringKeepsInvariant | core/bitcoin/BRPeerManager.c:1228-1338 | storing a verified block, as extension, replacement, fork or new tip, keeps the invariant |
| ChainModel.PrunedIs | core/bitcoin/BRPeerManager.c:1111-1119 | pruning removes only chain blocks that are not at a transition and changes nothing else |
| ChainModel.PrunedAll | core/bitcoin/BRPeerManager.c:1111-1119 | every chain block off the transitions goes |
| PeerManager.PeerManager.VerifyBlock | core/bitcoin/BRPeerManager.c:1090-1141 | accepts exactly the blocks that pass difficulty and checkpoint as seen before pruning, leaves exactly the pruned chain, and frees only blocks more than 2016 below |
| PeerManager.PeerManager.MainNetVerifyDifficulty | core/bitcoin/BRChainParams.c:93-110 | checks the target against the block 2016 back, without changing anything |
| PeerManager.PeerManager.Prune | core/bitcoin/BRPeerManager.c:1111-1119 | the in-place loop is that pruning |
| PeerManager.PeerManager.RelayOne | core/bitcoin/BRPeerManager.c:1143-1371 | what becomes of a relayed block, whether an assertion fails, the stored blocks, orphans, tip, expected height and the heights of all wallet transactions are exactly the relay functions of the state before; after a reorganisation with a stored highest common ancestor each transaction has the height of the lowest new block above it that proves it, or else keeps a height up to that ancestor's and is unconfirmed; otherwise the invariant holds; lastBlock is never lowered; what is handed to saveBlocks is exactly the function that SavedReaches is about, and is what the restore accepts |
| PeerManager.PeerManager.RelayBlock | core/bitcoin/BRPeerManager.c:1143-1371 | the same for a block followed by all the orphans that were waiting for it: it ends in the state, or in the failure, to which these steps lead, and has called saveBlocks with exactly the blocks of these steps in that order; whatever was on file before stays restorable after these calls |
| PeerManager.PeerManager.Store | core/bitcoin/BRPeerManager.c:1234-1347 | takes exactly the branch of the outcome function and leaves every wallet transaction at the height that outcome gives it |
| Relay.RunIsUnique | core/bitcoin/BRPeerManager.c:1143-1371 | a relayed block and its orphans lead to one list of saved blocks and one final state, or to the failure |
| Relay.LateForkTwice | core/bitcoin/BRPeerManager.c:1258-1266 | any verified fork block from below the stored main chain is kept when it is first relayed and fails the assertion when it is relayed again |
| PeerManager.AbortExample | core/bitcoin/BRPeerManager.c:1258-1266 | such a run from the start: a checkpoint, a saved tip two intervals above it, and a fork block relayed twice |
| PeerManager.StuckExample | core/bitcoin/BRPeerManager.c:1297-1331 | a run in which the walk to the join runs out on the fork's side and the assertion fails: a checkpoint, a saved tip that contradicts it, and a block above the checkpoint |
| PeerManager.NoJoinExample | core/bitcoin/BRPeerManager.c:1297-1331 | a state that satisfies the invariant in which a fork from the checkpoint takes over from a saved tip without a stored join: a transaction that its new tip proves stays unconfirmed |
| Relay.RecentKnownIsSafe | core/bitcoin/BRPeerManager.c:1258-1266 | a block that is stored already never fails the assertion from the last transition height on |
| Relay.StoredIsChecked | core/bitcoin/BRPeerManager.c:1121-1141 | a relayed block that is stored at a checkpoint height is that checkpoint, has its parent's target off the transitions, and lies above the last checkpoint unless it extends the main chain or is known |
| Relay.DroppedIff | core/bitcoin/BRPeerManager.c:1180-1222 | exactly when a relayed block is dropped and when it is kept as an orphan: late headers, a filter being replaced, and the age of a block without a parent |
| PeerManager.PeerManager.ExtendChain | core/bitcoin/BRPeerManager.c:1234-1240 | an extension becomes lastBlock and gives its height to exactly the wallet transactions it proves |
| PeerManager.PeerManager.RefreshBlock | core/bitcoin/BRPeerManager.c:1258-1279 | succeeds if and only if the chain of lastBlock is stored down to the block's height; then it replaces the header and gives the height to exactly the transactions it proves if it is on the main chain, and changes no transaction height otherwise |
| PeerManager.PeerManager.StoreFork | core/bitcoin/BRPeerManager.c:1292-1337 | a fork block is kept, takes over with all transaction heights of the new chain exactly when it is higher than lastBlock, and fails exactly when the walk to the join runs out on its side |
| PeerManager.PeerManager.Reorganise | core/bitcoin/BRPeerManager.c:1297-1331 | fails if and only if the two chains have no stored block in common and the fork's ends no lower than the main one; each wallet transaction then has its new-branch height, keeps its height below the join, or is unconfirmed; without a join everything from the bottom of the old chain on is unconfirmed and the new branch confirms nothing |
| Relay.ReorganisationIs | core/bitcoin/BRPeerManager.c:1297-1331 | the height a reorganisation gives is that of the lowest block of the new chain above the highest common ancestor that proves the transaction, and without one the old height up to that ancestor's and unconfirmed above |
| Relay.OtherHeights | core/bitcoin/BRPeerManager.c:1234-1295 | an extension gives its height to exactly the transactions it proves, and a block that is not stored or only kept on a fork changes no height |
| Reorg.FindJoin | core/bitcoin/BRPeerManager.c:1298-1304 | the two-pointer walk ends at the highest common ancestor, or runs out exactly when there is none among the stored blocks |
| Reorg.JoinIs | core/bitcoin/BRPeerManager.c:1298-1304 | the first block met on the way down the fork that is on the main chain is the highest common ancestor |
| Reorg.BranchHeightIs | core/bitcoin/BRPeerManager.c:1312-1329 | going down the new branch gives each transaction the height of the lowest block above the join that proves it |
| PeerManager.PeerManager.constructor | core/bitcoin/BRPeerManager.c:1466-1528 | building a manager from checkpoints and saved blocks establishes the invariant and stores nothing else; a saved chain makes its tip lastBlock, and a transition that no saved block is higher than makes lastBlock a saved block that none is higher than; whenever none is higher, in particular after any sequence of calls of saveBlocks, the waiting blocks are good too |
| Restore.SavingKeepsFile | core/bitcoin/BRPeerManager.c:1350-1362 | whatever is on file, another call of saveBlocks, which replaces the file or adds one transition block to it, leaves nothing, a saved chain, or blocks of which a transition is the highest |
| Restore.CollectSave | core/bitcoin/BRPeerManager.c:1350-1361 | walks from the tip over the given number of blocks or as far as they are stored, and hands over the longest part from the tip that ends at a multiple of 2016 |
| Restore.SavedReaches | core/bitcoin/BRPeerManager.c:1350-1361 | what is handed over is a chain from the tip whose lowest block is the first transition at or above the lowest block that is stored and among the given number |
| Relay.SavedAtEnd | core/bitcoin/BRPeerManager.c:1250-1362 | when the chain reaches its expected height, exactly the blocks from the tip down to the transition before the last are saved, as far as stored |
| Relay.SavedWhileSyncing | core/bitcoin/BRPeerManager.c:1248-1250 | more than a hundred blocks below it, exactly a transition block that extends the chain is saved, by itself |
| Restore.RestoredTip | core/bitcoin/BRPeerManager.c:1504-1519 | following the waiting blocks from the chosen transition ends at the saved tip |
| Restore.Load | core/bitcoin/BRPeerManager.c:1491-1519 | the two restore loops re-establish the invariant from any blocks that were stored, a parentless checkpoint included, with lastBlock the tip when they form a saved chain, and no saved block above it when a transition is the highest of them |
| Restore.LoadCheckpoints | core/bitcoin/BRPeerManager.c:1491-1500 | the checkpoints alone already satisfy the invariant, and lastBlock is the last of them that is more than a week older than the first key, or else the first |
| CoinSelection.Conservation | core/bitcoin/BRWallet.c:607-697 | inputs are outputs plus the fee paid, all requested outputs are there, a change output exceeds the minimum amount and pays exactly the computed fee, and without one the overpayment is at most the minimum amount |
| CoinSelection.FeeSufficient | core/bitcoin/BRWallet.c:607-697 | at any fee rate the fee paid covers the finished transaction's own virtual size if the change output, should there be one, takes no more than the 34 bytes set aside for it, the widening of the output count included |
| CoinSelection.FeeSufficientIff | core/bitcoin/BRWallet.c:607-697 | from 100 satoshi a byte on, with a change output, it does so if and only if that holds |
| CoinSelection.FeeShortExample | core/bitcoin/BRWallet.c:607-697 | 252 payments to key hashes from a coin of the wallet, with a 25-byte change script: the output count gets two bytes longer, the change output takes 36, and the fee falls short |
| CoinSelection.ChangeAdds | core/bitcoin/BRTransaction.c:589-616 | the change output raises the virtual size by exactly its bytes and those of the longer count |
| CoinSelection.ChangeSizes | core/bitcoin/BRWallet.c:607-697 | below 252 outputs a change script of up to 25 bytes fits; at 252 a 22-byte one does and a 25-byte one does not |
| CoinSelection.CreateTx | core/bitcoin/BRWallet.c:607-697 | takes the shortest prefix of resolvable unspent outputs that is enough, reports insufficient funds only when all of them together fall short, and stops when the size limit is passed |
| CoinSelection.InputsAreReady | core/bitcoin/BRWallet.c:630-638 | every input of a selection is a known unspent output with its amount and script, unsigned and final |
| CoinSelection.FeeRoundsBalance | core/bitcoin/BRWallet.c:675-676 | the increased fee leaves the wallet a multiple of 100 whenever the balance covers it |
| CoinSelection.TxFeeIs | core/bitcoin/BRWallet.c:46-52 | the fee reaches the standard fee and the asked rate and is no more than the next multiple of 100 or the standard fee |
| CoinSelection.MinOutputIs | core/bitcoin/BRWallet.c:1167-1178 | the minimum amount is the dust limit or the least amount that reaches it at the asked rate |
| CoinSelection.TxFeeMonotone | core/bitcoin/BRWallet.c:46-52 | a larger transaction never needs a smaller fee |
| CoinSelection.ShuffleOutputs | core/bitcoin/BRTransaction.c:542-556 | the in-place shuffle only permutes the outputs, whatever positions are drawn |
| CoinSelection.SumPermuted | core/bitcoin/BRTransaction.c:542-556 | sums over outputs do not depend on their order |
| Spending.SpendsUnspent | core/bitcoin/BRWallet.c:607-697 | a transaction built from the wallet's tally spends different outputs, all of them received by accepted transactions, and none spent by a listed transaction whenever the tally is exact |
| Spending.AllFunds | core/bitcoin/BRWallet.c:607-697 | the candidates together amount to the wallet's balance |
| PeerCollect.RelayedTxsSeen | core/bitcoin/BRPeer.c:414-456 | in the log of every run, each transaction a relayed block proves was known when its merkleblock came or arrived as a tx message between then and the relaying |
| PeerCollect.Announced | core/bitcoin/BRPeer.c:711-762 | an accepted merkleblock starts a collection that misses exactly its unknown hashes |
| PeerCollect.Peer.AcceptTxMessage | core/bitcoin/BRPeer.c:414-456 | takes one occurrence off the missing hashes, and relays the block exactly when none is left |
| PeerCollect.Peer.AcceptMerkleblockMessage | core/bitcoin/BRPeer.c:711-762 | waits for the unknown hashes, or relays at once when there are none |
| PeerCollect.Peer.AcceptMessage | core/bitcoin/BRPeer.c:836-865 | result, new state and logged events of every message are exactly the reaction function of the state and the message; currentBlock stays set exactly while hashes are missing, and a message other than a transaction abandons the collection |
| PeerCollect.Peer.AcceptInvMessage | core/bitcoin/BRPeer.c:314-412 | refuses a malformed inv, transactions announced before a filter or mempool request, more than 10000 of them, and too few blocks; drops one that is too long; and makes known exactly the transactions of any other |
| PeerCollect.Peer.SendMempool | core/bitcoin/BRPeer.c:1454-1484 | makes hashes known exactly when no mempool request was sent or is awaited |
| PeerCollect.Peer.SendInv | core/bitcoin/BRPeer.c:1535-1558 | makes exactly the given hashes known besides those that were |
| PeerCollect.Peer.HandleAll | core/bitcoin/BRPeer.c:836-865 | any sequence of messages and of the wallet's own requests leaves the state and the log of the reactions one after the other |
| PeerCollect.RelayedIsComplete | core/bitcoin/BRPeer.c:414-865 | over every sequence of messages and requests, refused ones included: a relayed block came as a valid merkleblock, only tx messages came since, and each transaction it proves was known before the merkleblock or came after it |
| PeerCollect.KnownIs | core/bitcoin/BRPeer.c:146-164 | over every such sequence, the known hashes are exactly those known at first, the transactions of each inv that was taken, and those that a mempool or inv request of the wallet named |
| PeerCollect.Peer.AddKnownTxHashes | core/bitcoin/BRPeer.c:146-164 | the index stays the set of the array's entries whether or not the array moved |

## Left out

- CoinSelection.CreateTx: does not model the retry with smaller outputs after a selection passes the size limit; that branch ends in the outcome `TooLarge`.
- CoinSelection.FeeSufficientIff: below 100 satoshi a byte the rounding of the fee may cover a byte that was not set aside; there only the sufficient condition of `FeeSufficient` is given.
- MerkleProof.ReportedTxIsProved: one direction; a block with a rejected node may still happen to prove what it lists.
- TxParser.Parse: offsets do not wrap around at 64 bits, and allocating arrays of the announced counts always succeeds.
- TxSerializer.Serialize: only the whole transaction; signature pre-images (other indices and hash types) and BIP143 digests are not modelled.
- Wallet.Wallet.RemoveTransaction: requires that no transaction is listed at a lower height than what it spends from; otherwise the scan by height misses spenders. `OrderAfterAdding`, `OrderAfterSweep` and `SetTxUnconfirmedAfter` say when the other operations keep that.
- Wallet.Wallet.constructor: the operations are claimed for a `Valid` wallet, so not for one loaded from a list with somebody else's transactions; the callbacks of a wallet are not modelled.
- PeerManager.PeerManager.RelayOne: the branch that keeps a block as orphan until a rescan completes cannot be reached under `ReachedParent` and is left out, as are rescans themselves.
- Bech32.Encode: a string has no zero byte inside; what happens behind the end of the address array is not modelled, only when it is reached.
- Base58.Decode: returns the bytes rather than filling a buffer of given size; the same holds for the other codecs and their length queries with null buffers.
- PeerCollect.Peer.AcceptInvMessage: the number and the bookkeeping of announced blocks are parameters of the message: whether there are too few of them, and whether any is requested.
- PeerCollect.Peer.AcceptMessage: for messages other than tx, merkleblock and inv the handler's verdict is part of the message.
- PeerCollect.Peer.HandleAll: the connection is closed after a refused message; the sequences of the model may go on.
- PeerManager.NoJoinExample: a state, not a run; its fork of 2017 blocks is not relayed one by one.
- Orphans are compared by value, so an orphan replaced by an equal block is not told apart from the original pointer.
- `_ceil_log2` on transaction counts of 2^31 and more, where the source's int overflows.
- The testnet difficulty rule, which accepts every block.
- Peer selection, misbehaviour, timeouts, bloom filters and the false positive rate, sockets, threads, logging, notifications and storage.
- Hashing, elliptic curves, key formats, signing, BIP32 and BIP39, payment protocol, local currency amounts, the b-cash address format.
