# zkBob relayer, indexer and finalizer: a verified model

The services of this repository keep local copies of an append-only log of
commitments that a pool contract holds. This project models the parts of them
where state, order and retries matter, and proves what they are for:

- **The two-tier log.** A pool has an optimistic log (everything announced) and a
  confirmed one. The contract sync and the watcher write both from chain events
  that arrive at least once; the indexer serves pages of the merged log; other
  services rebuild their logs from those pages.
- **Sending.** Two workers share a mutex, one transaction manager and a FIFO
  queue; they send, look for receipts and resend at a bumped price while the
  chain moves on its own. A pool that proves its own tree updates keeps its two
  tiers in step through all of that; a pool that relies on the indexer caches what
  it sent until the indexer has it.
- **Direct deposits** are collected in a sorted set and leave in batches.
- **Formats and arithmetic**: two's complement hexadecimal, calldata, stored
  records and wire format, compact signatures, gas prices and fees.

## Files

| file | models |
|---|---|
| `Hex.dfy`, `Records.dfy`, `Calldata.dfy`, `Signature.dfy` | formats |
| `GasPrice.dfy`, `Fees.dfy` | gas prices, fee options, quotes |
| `State.dfy`, `Pool.dfy` | one tier, the two-tier pool |
| `EventRanges.dfy`, `Watcher.dfy` | block ranges, the polling watcher |
| `ContractSync.dfy`, `Replica.dfy` | the two ways to rebuild a pool |
| `Indexer.dfy`, `IndexerService.dfy` | pages, and the indexer from its start on |
| `SendProtocol.dfy`, `DefaultPool.dfy` | workers and resends, the self-proving pool |
| `LocalCache.dfy`, `MergedPage.dfy` | the relayer's store and its merged page |
| `RelayCache.dfy`, `RelayPresence.dfy`, `RelayAnswers.dfy` | the relayer's cache over whole runs, when a sent transaction stays present, what clients are shown |
| `BatchCache.dfy` | direct deposit batches |
| `Bounds.dfy`, `Outcome.dfy` | shared helpers |

`dafny verify dfyconfig.toml` checks everything.

## How the model is built

- A hexadecimal string is a sequence of digits without `0x`. A class stands for
  every object of the source that changes in place; its methods are proved against
  functions on values, and the properties are proved about those functions.
- A commitment tree is the sequence of its commitments; the next index is
  `OUTPLUSONE = 128` times its length. The Merkle root is an arbitrary function of
  that sequence (`rootOf`), taken to be injective only in the statements about
  stale proofs and about syncs that fail. The transaction storage is a map, a Redis set or hash a set or map.
- Concurrency is a run of atomic steps: a worker's processor runs under the mutex,
  so one call is one step; the cache observer, the batch executors, `processCache` and
  the relayer's `/transactions/v2` are split at their `await`s. The chain, the node, clocks, failures and HTTP answers are
  parameters of the steps, so every statement is about all of them.

## Where the code and what is expected of it differ

Each point is a member of the project with a concrete case or an exact condition.

- `syncStateFromIndexer` asks for the next page at the optimistic length but writes
  it at the confirmed one. It agrees with the indexer for all logs if and only if the
  local optimistic log is at most 200 entries longer than the local confirmed one or
  the indexer has at most 200 entries past the latter (`Replica.SyncCondition`).
- `syncState` scans from the block where the pool was confirmed last, which a
  `RootUpdated` event sets to its own block, not to that of the messages it covers.
  Whatever the local pool holds, it ends in order if and only if the confirmed leaves
  are the contract's, or they are fewer and the messages of the window reach from the
  first one that is missing or wrong to the contract's index
  (`ContractSync.SyncCondition`). A window that starts too late leaves a gap and wipes both tiers (`ContractSync.GapWipes`); one that ends too early, or
  starts past everything that is missing, is scanned in every round without an end
  (`ContractSync.NeverEnds`). `IndexerService.RestartExample` is a restart that does
  both. An indexer that watched the chain from its first block can resume at every
  moment if and only if every root covers what was announced in the blocks below it
  (`IndexerService.ResumableWhenCaughtUp`); after a root that does not, a restart fails
  as soon as the contract has moved on (`IndexerService.LaggingRootBreaksRestart`).
- On a start with an empty pool, the first one or the one after a wipe, with announced
  but no confirmed transactions the sync finds the empty tree in order, and the watcher
  starts after the announcements: they are never stored. In every other case the watcher
  can take over (`IndexerService.SyncFromNothing`).
- After a revert, a new transaction keeps the optimistic log equal to the confirmed
  one and what is in flight if and only if no older job is still in flight
  (`DefaultPool.AcceptNeedsTheGate`). One that is accepted earlier, and rolled back with
  the older jobs, is taken by the contract all the same, and the commitments that the
  code then compares differ unless it commits to an empty leaf
  (`DefaultPool.UngatedAcceptCorrupts`; `DefaultPool.UngatedRunCorrupts` is an instance).
  The code has no such gate; the run theorems assume it.
- `toBN` reads an unprefixed string of decimal digits as a decimal number, so an
  EIP-2098 signature survives if and only if its `yParityAndS` word shows a letter or
  is below ten (`Signature.GuessedRoundTrip`; `Signature.GuessedLoses` is one that does
  not).
- A surplus of zero skips the gas price limit (`GasPrice.ExtraWithinLimit`).
- The relayer keeps a sent transaction in its cache until the indexer has it. From its
  send on it stays in one of the two, whatever happens short of its own revert, its
  expiry or another send of its commitment, if and only if the indexer has the
  commitment already, or the observer holds no older copy of the cache entry and no
  earlier transaction of the commitment may still revert (`RelayPresence.SendIsSafe`;
  `RelayPresence.StaysExactly` is the condition at any later moment). Two ways to lose
  one: an expired copy in the observer's hands (`RelayPresence.StaleCopyTakesResend`),
  and a second transaction with the same nullifier, which only the revert of some
  transaction lets through (`RelayPresence.SecondNeedsRevert`) and whose own revert
  takes the entry of the first (`RelayPresence.SecondRevertTakesFirst`).
- The relayer's `/transactions/v2` fetches the indexer's page before it reads the cache.
  Every answer below the limit shows a transaction if and only if it was indexed when
  the page was fetched (`RelayAnswers.AnswersExactly`); one that is indexed in between,
  and removed from the cache, is missing (`RelayAnswers.AnswerMisses`) until the next
  request (`RelayAnswers.MissedIsIndexed`). With the cache read first nothing would be
  (`RelayAnswers.ListFirstLosesNothing`).
- A batch size of zero makes the range generator (`EventRanges.ZeroBatchNeverEnds`)
  and `processCache` (`BatchCache.RoundsEnd`) endless; both demand at least one here.
- README.md of the repository describes the first character of a transaction on
  `/transactions/v2` as `1` or `0`; the indexer sends `1` or `2`, the relayer adds `0`.
  The model follows the code.

## Model

| member | source | states |
|---|---|---|
| Hex.NumToHexFits | zp-relayer/utils/helpers.ts:59-69 | `numToHex` gives exactly `pad` digits if and only if the number fits, and they denote it modulo `16^pad` |
| Hex.NumToHexRoundTrip | zp-relayer/utils/helpers.ts:59-69 | reading the digits as two's complement returns the number if and only if it is in the two's complement range |
| Hex.ValueInjective | zp-relayer/utils/helpers.ts:59-69 | strings of one length that denote one number are equal |
| Records.PrefixedMemoParts | zp-relayer/utils/helpers.ts:135-137 | a record gives back its commitment, hash and memo |
| Records.WireRoundTrip | zp-relayer/utils/helpers.ts:298-303 | a client reads the stored record and its confirmed flag off the wire, no part lost or moved |
| Records.StoredCarries | zp-relayer/utils/helpers.ts:135-137 | the stored digits, by position: commitment, hash, and the memo without an unpaired last digit |
| Records.TruncateLeavesRest | zp-relayer/utils/helpers.ts:27-50 | cutting the prefix of a memo made of its prefix fields and a rest leaves the rest, for both versions and all four types |
| Records.WireLayout | zp-relayer/utils/helpers.ts:298-303 | flag, hash, commitment and memo on the wire, by position |
| Records.FlagsAre | zp-relayer/services/relayer/endpoints.ts:119 | of the three flags `0`, `1` and `2` a client takes exactly `1` as mined |
| Calldata.TypeRoundTrip | zp-relayer/utils/helpers.ts:18-25 | every transaction type is read back from its digits |
| Calldata.FieldAt | zp-relayer/utils/PoolCalldataParser.ts:12-41 | a field that stands at its table offset is what the parser returns |
| Calldata.DecodeBuildV1 | zp-relayer/pool/DefaultPool.ts:206-255 | parsing the built `transact()` calldata returns commitment, nullifier and truncated memo, for every in-range transaction, root and tree proof |
| Calldata.DecodeBuildV2 | zp-relayer/pool/RelayPool.ts:202-257 | the same for `transactV2()` |
| Calldata.LayoutV1 | zp-relayer/pool/DefaultPool.ts:225-250 | the built `transact()` calldata, digit position by digit position: selector, nullifier, commitment, index and amounts modulo their width, proof words, new root, tree proof, type, memo and signature |
| Calldata.LayoutV2 | zp-relayer/pool/RelayPool.ts:215-244 | the same for `transactV2()`, with its version |
| Calldata.ReadsByPosition | zp-relayer/utils/PoolCalldataParser.ts:1-41 | what is read from any `transact` calldata, whoever built it: the fields at their positions, a memo that may end early, an error for a type that is none of the four |
| Calldata.ShortTransactFails | zp-relayer/utils/helpers.ts:18-25 | calldata that ends before its type is refused |
| Calldata.DepositCommitment | zp-relayer/pool/BasePool.ts:273-299 | the commitment of direct deposit calldata is its second parameter word, in the old form the third, and the memo is that of the event |
| Calldata.ShortDepositFails | zp-relayer/pool/BasePool.ts:273-299 | direct deposit calldata that ends before that word is refused |
| Calldata.UnknownSelectorFails | zp-relayer/pool/BasePool.ts:343-345 | calldata with any other selector is refused |
| Calldata.FirstSelector | zp-relayer/pool/BasePool.ts:258-345 | the dispatch on selectors is unambiguous for built calldata |
| Calldata.RecordsAgree | zp-relayer/pool/RelayPool.ts:305-315 | the record the indexer rebuilds from the chain is the record the relayer cached |
| Signature.PackFull | zp-relayer/utils/helpers.ts:71-88 | the packed word is `r` and `parity * 2^255 + s` (EIP-2098) |
| Signature.UnpackWord | zp-relayer/utils/helpers.ts:90-120 | unpacking gives `r`, `s`, `v`, or the error exactly when `s` is too large |
| Signature.UnpackPack | zp-relayer/utils/helpers.ts:71-120 | unpacking undoes packing for every `r`, `s <= S_MAX`, `v` in {27, 28} |
| Signature.PackUnpack | zp-relayer/utils/helpers.ts:71-120 | packing an accepted unpacked value returns the same 128 digits |
| Signature.GuessedRoundTrip | zp-relayer/utils/helpers.ts:90-120 | with the reading the code uses, exactly when the round trip holds |
| Signature.GuessedLoses | zp-relayer/utils/helpers.ts:90-120 | the signature with `s = 16` and `v = 27` does not survive that reading, whatever `r` |
| Signature.PackCases | zp-relayer/utils/helpers.ts:71-88 | packing for every length and every `v`: 128 digits pass, fewer are refused, `1b` drops the rest, `1c` also sets the top bit, other values are refused |
| Signature.UnpackCases | zp-relayer/utils/helpers.ts:90-97 | 130 digits pass as they are, other lengths than 128 are refused |
| GasPrice.ChosenIsLeast | zp-relayer/lib/gas-price/GasPrice.ts:58-69 | the chosen price is the least that replaces both; for two kinds it is the new one |
| GasPrice.RoundsToNearest | zp-relayer/lib/gas-price/GasPrice.ts:106-116 | the result goes to a nearest integer, halves away from zero |
| GasPrice.SurplusIs | zp-relayer/lib/gas-price/GasPrice.ts:106-116 | an unlimited surplus is the rounded product, a limit cuts it off and changes nothing below itself |
| GasPrice.SurplusOfPrice | zp-relayer/lib/gas-price/GasPrice.ts:118-135 | every component gets its own surplus, a zero factor leaves the price |
| GasPrice.BumpStrict | zp-relayer/lib/gas-price/GasPrice.ts:106-116 | a bump raises the price if and only if it adds at least half a unit |
| GasPrice.BumpHistory | zp-relayer/lib/gas-price/GasPrice.ts:106-135 | after `n` bumps, `p_n - 1/(2f) >= (1+f)^n (p_0 - 1/(2f))`, and no price fell |
| GasPrice.ChainOrdered | zp-relayer/lib/gas-price/GasPrice.ts:58-135 | any chain of limit, surplus, bump and choose steps keeps `maxPriorityFeePerGas <= maxFeePerGas` |
| GasPrice.WithinLimit | zp-relayer/lib/gas-price/GasPrice.ts:71-104 | the limit step is the component-wise minimum, keeps the order and changes nothing below the limit |
| GasPrice.ExtraWithinLimit | zp-relayer/lib/gas-price/GasPrice.ts:106-135 | a surplus respects its limit if and only if it is not zero or the price was under the limit |
| GasPrice.ZeroSurplusExceedsLimit | zp-relayer/lib/gas-price/GasPrice.ts:118-119 | a concrete price above the limit that a zero surplus lets through |
| Fees.DenominateUndoesApply | zp-relayer/utils/helpers.ts:288-290 | with a multiplying denominator, token units convert back exactly |
| Fees.ApplyUndoesDenominate | zp-relayer/utils/helpers.ts:288-290 | with a dividing denominator, pool units convert back exactly |
| Fees.Galois | zp-relayer/lib/fee/FeeManager.ts:55-59 | in the rounding direction, `n * D <= m` if and only if `n <= m div D` |
| Fees.DivTruncates | zp-relayer/utils/helpers.ts:288-290 | division drops the fraction on both sides of zero |
| Fees.ScaledIs | zp-relayer/lib/fee/FeeManager.ts:50-53 | a factor is a percentage, rounded down |
| Fees.BoundedIs | zp-relayer/lib/fee/FeeManager.ts:67-74 | a bounded fee is the greater of itself and its minimum, and no fee is added or lost |
| Fees.QuoteIs | zp-relayer/lib/fee/FeeManager.ts:55-59 | what a quoted fee is for both kinds of denominator |
| Fees.RequiredFeeIs | zp-relayer/lib/fee/DynamicFeeManager.ts:14-23 | for `n` bytes written in `2 + 2n` characters: base fee, `n` byte fees and conversion, times the margin in percent, rounded down |
| Fees.FeeOptions.MapI | zp-relayer/lib/fee/FeeManager.ts:34-39 | the in-place loop applies the function to every entry once |
| Fees.FeeOptions.ApplyFactor | zp-relayer/lib/fee/FeeManager.ts:50-53 | every fee is scaled by the factor in percent, in place |
| Fees.FeeOptions.ApplyMinBound | zp-relayer/lib/fee/FeeManager.ts:67-74 | no fee stays below its minimum, in place |
| Fees.FeeOptions.Denominate | zp-relayer/lib/fee/FeeManager.ts:55-59 | the object then holds the quote of its former fees |
| Fees.FeeManager.GetFeeOptions | zp-relayer/lib/fee/FeeManager.ts:189-203 | which options are returned in each case, always a fresh object; only the uncached ones get the minimum |
| Fees.FeeManager.GetFee | zp-relayer/services/relayer/endpoints.ts:203-210 | denominating in place leaves the cached options as they were |
| Fees.FeeManager.EstimateFee | zp-relayer/lib/fee/FeeManager.ts:174-179 | the fee a transaction is checked against |
| Fees.RequiredAgainstQuote | zp-relayer/lib/fee/DynamicFeeManager.ts:14-23 | the required denominated fee is never below the component-wise quote and exceeds it by at most `len + 1` |
| State.NullifierSet.Add | zp-relayer/state/nullifierSet.ts:5-8 | the set gains exactly the given nullifiers |
| State.NullifierSet.Remove | zp-relayer/state/nullifierSet.ts:10-13 | the set loses exactly the given nullifiers |
| State.PoolState.GetVirtualTreeProofInputs | zp-relayer/state/PoolState.ts:25-66 | the two roots and the index of the next free position |
| State.PoolState.UpdateState | zp-relayer/state/PoolState.ts:123-127 | writes commitment and record at one position, by overwriting or appending |
| State.PoolState.RollbackTo | zp-relayer/state/PoolState.ts:129-145 | the tier after the rollback, records included |
| State.PoolState.Wipe | zp-relayer/state/PoolState.ts:147-155 | the tier after a wipe |
| State.PoolState.GetTransactions | zp-relayer/state/PoolState.ts:157-174 | consecutive records from the rounded offset and the offset tried last |
| State.ReadsUpToMissing | zp-relayer/state/PoolState.ts:157-174 | on any tier: the records from the rounded offset up to the first missing one or the limit, and the offset tried last |
| State.AppendHolds | zp-relayer/state/PoolState.ts:123-127 | writing at the end appends one entry to the log a tier holds |
| State.RewriteHolds | zp-relayer/state/PoolState.ts:123-127 | writing again what a position holds changes nothing |
| State.RollbackHolds | zp-relayer/state/PoolState.ts:129-145 | a rollback leaves exactly the prefix: leaves, records and keys |
| State.HoldsUnique | zp-relayer/state/PoolState.ts:9-23 | a log and its nullifiers determine a tier |
| State.RecordsAreSlice | zp-relayer/state/PoolState.ts:157-174 | reading records is slicing the log |
| State.PutIs | zp-relayer/state/PoolState.ts:123-127 | writing one leaf keeps the others and fills a gap with zeros |
| State.RollbackForgets | zp-relayer/state/PoolState.ts:129-145 | on any tier: a longer target changes nothing, any other cuts the leaves and forgets exactly the records of the positions it cuts |
| Pool.BasePool.AddTxToState | zp-relayer/pool/BasePool.ts:258-352 | both tiers and the last confirmed block after the decoded transaction, or the error case |
| Pool.BasePool.PropagateOptimisticState | zp-relayer/pool/BasePool.ts:354-372 | both tiers and the last confirmed block after the copying loop, or its errors |
| Pool.BasePool.SetLastConfirmedTxBlock | zp-relayer/pool/BasePool.ts:450-455 | the highest block is kept |
| Pool.BasePool.ClearOptimisticState | zp-relayer/pool/BasePool.ts:132-141 | both tiers after the rollback |
| Pool.StoredRecordIsStored | zp-relayer/pool/BasePool.ts:347-351 | the first 64 digits of a stored record decode to its commitment |
| Pool.AnnounceAppends | zp-relayer/pool/BasePool.ts:258-352 | an announced transaction extends the optimistic log by its record and keeps the confirmed tier |
| Pool.AnnounceAgain | zp-relayer/pool/BasePool.ts:258-352 | announcing it again changes nothing |
| Pool.AddToBoth | zp-relayer/pool/BasePool.ts:347-351 | a confirmed transaction extends both logs and its nullifier is known |
| Pool.PropagateMirrors | zp-relayer/pool/BasePool.ts:354-372 | confirmed becomes the optimistic log up to `max(old length, k)`; refused without a change exactly past its end |
| Pool.ClearRestores | zp-relayer/pool/BasePool.ts:132-141 | rolling back makes the tiers equal, keeps the confirmed one and empties the optimistic nullifiers |
| Pool.ClearedRootsAgree | zp-relayer/pool/BasePool.ts:138-140 | the logged assertion that the roots are equal holds |
| Pool.RecordStores | zp-relayer/pool/BasePool.ts:258-352 | on any tiers: where commitment and record of a decoded transaction are written, by position and digits, what stays, which index is refused, and where the nullifier goes |
| Pool.DepositIsStored | zp-relayer/pool/BasePool.ts:273-299 | a direct deposit is stored with its own commitment and the memo of its event |
| Pool.UndecodedIsRefused | zp-relayer/pool/BasePool.ts:343-345 | calldata that cannot be decoded changes nothing |
| Pool.BlockMoves | zp-relayer/pool/BasePool.ts:317-342 | a mined `transact` call moves the remembered block up to its own, never down |
| Pool.BlockStays | zp-relayer/pool/BasePool.ts:273-299 | a deposit or an announcement does not move it |
| Pool.CopyUpStops | zp-relayer/pool/BasePool.ts:354-372 | copying stops at the first record that is missing, with the ones before copied |
| EventRanges.GetEvents | zp-relayer/lib/network/evm/EvmBackend.ts:51-78 | the loop ends with non-empty, contiguous ranges from `startBlock` to `lastBlock`, each of at most `batchSize + 1` blocks |
| EventRanges.TilesDisjoint | zp-relayer/lib/network/evm/EvmBackend.ts:51-78 | no block is asked for twice |
| EventRanges.TilesCover | zp-relayer/lib/network/evm/EvmBackend.ts:51-78 | exactly the blocks of the window are asked for |
| EventRanges.ZeroBatchNeverEnds | zp-relayer/lib/network/evm/EvmBackend.ts:51-78 | the excluded batch size of zero never ends |
| Watcher.Watcher.Init | zp-relayer/watcher/Watcher.ts:29-33 | the block in Redis, if there is one, replaces the configured one |
| Watcher.Restart | zp-relayer/watcher/Watcher.ts:19-33 | a new watcher over the old Redis goes on where the last one stopped, at the configured block only if nothing was processed |
| Watcher.Watcher.Dispatch | zp-relayer/services/indexer/init.ts:25-35 | one event applied to the pool, and the block a root leaves behind |
| Watcher.Watcher.Processor | zp-relayer/services/indexer/init.ts:25-35 | a batch that may fail at any event |
| Watcher.Watcher.Watch | zp-relayer/watcher/Watcher.ts:35-63 | one polling round: the pool, the last processed block, and its copy in Redis |
| Watcher.FoldMirrors | zp-relayer/services/indexer/init.ts:25-35 | applied once each, the events leave the announced records and the covered prefix of them |
| Watcher.LogRecords | zp-relayer/services/indexer/init.ts:25-35 | every announcement gives one record: the commitment and memo of its calldata or event, under its hash, at the position of its pool index |
| Watcher.ProcessStops | zp-relayer/services/indexer/init.ts:25-35 | over any pool and events, a batch stops at the failure or at the first refused event, with the ones before applied |
| Watcher.Replay | zp-relayer/services/indexer/init.ts:25-35 | an event applied again at any later time changes no log, root, record or nullifier |
| Watcher.ProcessCatchesUp | zp-relayer/watcher/Watcher.ts:45-62 | a batch repeated from any earlier event, up to a failure, neither loses nor repeats an effect and gets exactly that far |
| Watcher.WatchKeeps | zp-relayer/watcher/Watcher.ts:35-63 | a round reaches the last block with enough confirmations but at most `batchSize` past the first new one, or stays; it applies no event of a later block and misses none up to the block it reaches |
| Watcher.ExactlyOnceEffect | zp-relayer/watcher/Watcher.ts:35-63 | over every run, the pool is the once-each fold of a prefix of the chain's events |
| ContractSync.SyncStateFromContract | zp-relayer/pool/BasePool.ts:236-256 | one pass equals adding every message of the window in order, whatever the ranges; or the error for a lagging contract |
| ContractSync.SyncState | zp-relayer/pool/BasePool.ts:148-198 | the loop with its start looked up in every round, the check of the root and the wipe |
| ContractSync.RecordOne | zp-relayer/pool/BasePool.ts:252-253 | a message before or at the contract's index goes to both tiers, a later one to the optimistic tier, as rewrite or append |
| ContractSync.MessageStores | zp-relayer/pool/BasePool.ts:252-253 | on any pool: which tiers a message is written to, what is written, and the block that is remembered |
| ContractSync.PassScans | zp-relayer/pool/BasePool.ts:173-176 | a pass scans from the configured start or the remembered block, whichever is later, to the last block |
| ContractSync.AddMessagesStops | zp-relayer/pool/BasePool.ts:236-256 | a pass ends with an error at the first refused message, with the ones before stored |
| ContractSync.ErrorEndsSync | zp-relayer/pool/BasePool.ts:169-190 | a refused message or a missing start block ends the sync with an error, with what was stored before and without a wipe |
| ContractSync.PassMirrors | zp-relayer/pool/BasePool.ts:236-256 | a pass over any gapless stretch of events leaves both logs as stretches of the chain's log and adds exactly the mined nullifiers |
| ContractSync.PassLeaves | zp-relayer/pool/BasePool.ts:236-256 | a pass over any stretch, gap or not, writes the mined ones of its entries at their positions and remembers the block of one of them or the one it knew |
| ContractSync.SyncRestores | zp-relayer/pool/BasePool.ts:148-198 | with nothing to do, or a window from the first missing message to the contract's index, the sync ends after one pass in the contract's log, without a wipe |
| ContractSync.SyncCondition | zp-relayer/pool/BasePool.ts:148-198 | from any local state a sync ends in the contract's log if and only if its leaves are the contract's, or fewer with a window from the first missing or wrong one to the contract's index |
| ContractSync.GapWipes | zp-relayer/pool/BasePool.ts:173-197 | a window that starts after the first missing or wrong leaf and reaches the contract's index ends in two empty tiers and a forgotten block, whatever the tiers held |
| ContractSync.NeverEnds | zp-relayer/pool/BasePool.ts:169-189 | a window that ends before the contract's index, or starts past everything missing, never ends the loop, although its start may move |
| ContractSync.PassRemembers | zp-relayer/pool/BasePool.ts:450-455 | a pass remembers the block it knew or one below which everything is on the contract |
| ContractSync.WipeEmpties | zp-relayer/pool/BasePool.ts:191-197 | a wipe empties both tiers, also after a gap |
| Indexer.GetTransactionsV2 | zp-relayer/services/indexer/router.ts:49-66 | the page: confirmed records, then optimistic ones |
| Indexer.PageIsSlice | zp-relayer/services/indexer/router.ts:49-66 | a page is exactly the named slice of the merged log, flag `1` exactly on confirmed entries |
| Indexer.PageDigits | zp-relayer/services/indexer/router.ts:49-66 | the digits of every entry of a page: `1` or `2`, hash, commitment and memo of the record at its position |
| Indexer.PagesConcatenate | zp-relayer/services/indexer/router.ts:49-66 | successive pages join without gap or repeat, also across the border |
| Indexer.PagingReadsAll | zp-relayer/services/indexer/router.ts:49-66 | paging with any limit reads the rest of the log and stops |
| IndexerService.BatchHolds | zp-relayer/services/indexer/init.ts:25-35 | the replay result for a pool that starts ahead of the roots it has seen, nullifiers unchanged |
| IndexerService.IndexerServesTheChain | zp-relayer/services/indexer/init.ts:6-42 | from an empty start, a restart with what was stored or one after a wipe, through the contract sync and any polling rounds with any failures, logs and pages are those of a prefix of the chain's events; with roots that catch up the next restart can resume |
| IndexerService.ResumableWhenCaughtUp | zp-relayer/pool/BasePool.ts:354-372 | an indexer that watched from the first block can resume at every moment if and only if every root covers what was announced in the blocks below it |
| IndexerService.WatchedIsReached | zp-relayer/watcher/Watcher.ts:35-63 | the states this speaks of are reached |
| IndexerService.LaggingRootBreaksRestart | zp-relayer/pool/BasePool.ts:173-176 | after a root that leaves an earlier block's entry behind, a restart succeeds if and only if the contract has not moved on |
| IndexerService.RestartExample | zp-relayer/pool/BasePool.ts:173-197 | three announcements and two roots, after which a restart is wiped or scans for ever |
| IndexerService.SyncFromNothing | zp-relayer/services/indexer/init.ts:15-24 | with an empty pool and any stored block or none, the watcher can take over from the sync if and only if something is confirmed or nothing is announced up to where it resumes |
| Replica.SyncStateFromIndexer | zp-relayer/pool/BasePool.ts:200-216 | the paging loop ends and computes the sync of the indexer's log, through pages, flags and wire format |
| Replica.WriteTx | zp-relayer/pool/BasePool.ts:218-234 | one entry read off the wire is written to the optimistic tier, and to the confirmed one if mined |
| Replica.SyncAgrees | zp-relayer/pool/BasePool.ts:200-216 | with at most 200 surplus entries the replica's logs agree with the indexer's |
| Replica.SyncDiverges | zp-relayer/pool/BasePool.ts:200-216 | for all other lengths there are agreeing logs that the sync leaves different |
| Replica.SyncCondition | zp-relayer/pool/BasePool.ts:200-216 | the exact condition on lengths for every sync to agree |
| SendProtocol.EvmTxManager.PrepareTx | zp-relayer/lib/network/evm/EvmTxManager.ts:76-129 | a first send takes the next nonce, a resend changes the price only |
| SendProtocol.EvmTxManager.ResendTx | zp-relayer/lib/network/evm/EvmTxManager.ts:131-205 | the attempt, the error and what the network may know for every answer of the node |
| SendProtocol.EvmTxManager.ConfirmTx | zp-relayer/lib/network/evm/EvmTxManager.ts:207-231 | the reverse scan finds the latest hash with a receipt, or there is none |
| SendProtocol.Workers.PoolTxWorkerProcessor | zp-relayer/workers/poolTxWorker.ts:35-115 | one call is one reject or send step |
| SendProtocol.Workers.SentTxWorkerProcessor | zp-relayer/workers/sentTxWorker.ts:20-92 | one call is one resolve step if some attempt has a receipt, else one resend step |
| SendProtocol.ReachableHolds | zp-relayer/workers/sentTxWorker.ts:20-105 | in every reachable state nonces are consecutive, attempts non-empty and equal but for the price, the network knows attempts only, job states agree with receipts |
| SendProtocol.OneReceiptPerJob | zp-relayer/lib/network/evm/EvmTxManager.ts:207-231 | at most one hash of a job is ever mined, and a receipt exists exactly when the nonce is mined |
| SendProtocol.HeadResolvesWhenMined | zp-relayer/workers/sentTxWorker.ts:27-92 | the head job resolves exactly when its nonce is mined, with that receipt |
| SendProtocol.StatesMoveForward | zp-relayer/pool/RelayPool.ts:272-303 | job states only move forward, and final ones are never overwritten |
| SendProtocol.FinalStatesStay | zp-relayer/pool/RelayPool.ts:272-303 | the same over every run |
| SendProtocol.JobsEndAsMined | zp-relayer/workers/sentTxWorker.ts:73-92 | a job ends completed or reverted as the one receipt of its nonce says |
| SendProtocol.ResendKeepsAttempts | zp-relayer/workers/sentTxWorker.ts:38-71 | a resend keeps the attempts so far and the list consistent: one nonce, one content, each price at least the bump of the one before |
| SendProtocol.ResendRefused | zp-relayer/workers/sentTxWorker.ts:48-60 | a resend that the account cannot pay for changes nothing: the raised price is not kept |
| SendProtocol.ResendAdds | zp-relayer/workers/sentTxWorker.ts:43-71 | after any other answer the head job has exactly one attempt more, the last one at the higher of its bumped price and the quoted price with its surplus |
| SendProtocol.SendQueues | zp-relayer/workers/poolTxWorker.ts:64-115 | a first send keeps recipient, value, calldata and gas, takes the next nonce and the price with its surplus, and queues the job whatever the node answers |
| SendProtocol.RejectFails | zp-relayer/workers/poolTxWorker.ts:52-57 | a rejected job is failed and nothing else changes |
| SendProtocol.ResendHistoryGrows | zp-relayer/lib/network/evm/EvmTxManager.ts:63-74 | the growth bound over the whole resend history of a job |
| DefaultPool.DefaultPool.CheckNullifier | zp-relayer/pool/DefaultPool.ts:114-115 | a nullifier is refused exactly when either tier holds it |
| DefaultPool.DefaultPool.BuildNormalTx | zp-relayer/pool/DefaultPool.ts:197-255 | index and root of the optimistic log with the new commitment |
| DefaultPool.DefaultPool.OnSend | zp-relayer/pool/DefaultPool.ts:289-297 | the optimistic tier after a send |
| DefaultPool.DefaultPool.OnConfirmed | zp-relayer/pool/DefaultPool.ts:299-335 | both tiers after a confirmation, and its two logged comparisons |
| DefaultPool.SendWrites | zp-relayer/pool/DefaultPool.ts:289-297 | on any tiers: a send writes one position of the optimistic tier, with commitment, hash and memo, and its nullifier |
| DefaultPool.ConfirmWrites | zp-relayer/pool/DefaultPool.ts:299-315 | a confirmation writes the record with the mined hash into both tiers and moves the nullifier |
| DefaultPool.EveryRunKeeps | zp-relayer/pool/DefaultPool.ts:197-335 | in every gated run, optimistic is confirmed plus in flight; after the log from the start there is one record for each settled and each in-flight transaction, with its commitment, hash and memo; proofs fit the log they will meet; no nullifier is held twice |
| DefaultPool.StaleProofsAreRejected | zp-relayer/pool/DefaultPool.ts:197-204 | after a revert the contract takes no proof that is still in flight |
| DefaultPool.AssertionsHold | zp-relayer/pool/DefaultPool.ts:317-330 | the commitments and the roots compared at a confirmation are equal |
| DefaultPool.PipelineTheorem | zp-relayer/pool/DefaultPool.ts:197-335 | the run-level statement from a synced start |
| DefaultPool.AcceptNeedsTheGate | zp-relayer/pool/DefaultPool.ts:206-297 | a new job keeps the pipeline equation if and only if no revert is draining |
| DefaultPool.UngatedAcceptCorrupts | zp-relayer/pool/DefaultPool.ts:289-322 | from any state in which a revert drains: a job accepted then and rolled back with the older ones is taken by the contract, and the compared commitments agree if and only if it commits to an empty leaf |
| DefaultPool.UngatedRunCorrupts | zp-relayer/pool/DefaultPool.ts:317-322 | an instance of that, from the empty pool |
| LocalCache.TxStore.Add | zp-relayer/state/TxStore.ts:9-11 | stores the stamped record under its commitment |
| LocalCache.TxStore.Remove | zp-relayer/state/TxStore.ts:13-15 | forgets exactly that commitment |
| LocalCache.TxStore.Get | zp-relayer/state/TxStore.ts:17-24 | the decoded entry, or nothing |
| LocalCache.TxStore.GetAll | zp-relayer/state/TxStore.ts:26-37 | all entries decoded |
| LocalCache.StampRoundTrip | zp-relayer/state/TxStore.ts:9-37 | an entry reads back as it was stored if and only if its timestamp has at most 48 bits |
| LocalCache.StampLayout | zp-relayer/state/TxStore.ts:9-11 | twelve digits of time, then the record |
| MergedPage.GetTransactionsV2 | zp-relayer/services/relayer/endpoints.ts:99-125 | the loop with its break computes the merged page |
| MergedPage.MergedPageIs | zp-relayer/services/relayer/endpoints.ts:99-125 | indexer entries first, then unindexed cached records flagged `0` in timestamp order, no commitment twice |
| MergedPage.MergedPageLength | zp-relayer/services/relayer/endpoints.ts:109-112 | the page is filled to the limit, or holds all there is |
| MergedPage.OldestFirst | zp-relayer/services/relayer/endpoints.ts:99-112 | when not all cached entries fit, the oldest are taken |
| MergedPage.ShortPageHoldsAll | zp-relayer/services/relayer/endpoints.ts:109-121 | a page below the limit holds every cached transaction |
| MergedPage.IndexerPageDistinct | zp-relayer/services/indexer/router.ts:49-66 | pages of a log without repeated commitments have none |
| RelayCache.RelayPool.OnSend | zp-relayer/pool/RelayPool.ts:259-270 | nullifier and cache after a send |
| RelayCache.RelayPool.OnFailed | zp-relayer/pool/RelayPool.ts:286-303 | both tiers and cache after a revert |
| RelayCache.RelayPool.ObserveEntries | zp-relayer/pool/RelayPool.ts:378-392 | one round removes exactly the indexed and the expired entries and counts the rest |
| RelayCache.LeftCounts | zp-relayer/pool/RelayPool.ts:378-392 | the count is that of the entries neither on the page nor older than a day |
| RelayCache.CachedIs | zp-relayer/pool/RelayPool.ts:305-316 | what is cached for a send: commitment, hash and memo by position, the time, and nothing else changed |
| RelayCache.RelayPool.CheckNullifier | zp-relayer/pool/RelayPool.ts:122-123 | a nullifier passes exactly when neither the relayer nor the contract knows it |
| RelayCache.ReachableHolds | zp-relayer/pool/RelayPool.ts:259-403 | in every reachable state cached entries read back as they were sent, the optimistic nullifiers include all sent since the last handled revert, successful ones are spent, the observer runs while anything is cached, and its page holds indexed commitments only |
| RelayPresence.StaysExactly | zp-relayer/pool/RelayPool.ts:259-403 | at any moment of any run: a transaction stays present until its own revert, its expiry or another send of its commitment if and only if it is indexed, or cached with no older copy pending and no other transaction of the commitment that may revert while it does not |
| RelayPresence.SendIsSafe | zp-relayer/pool/RelayPool.ts:259-270 | the same at its send: if and only if it is indexed, or no older copy is pending and no earlier transaction of the commitment may still revert |
| RelayPresence.NothingDisappears | zp-relayer/pool/RelayPool.ts:259-303 | a transaction that was safe to send is, in every run, in the cache exactly as it was sent or in the indexer's log |
| RelayPresence.SecondNeedsRevert | zp-relayer/pool/RelayPool.ts:122-123 | a nullifier is sent a second time only after the receipt of some revert was handled since the first time, and while the first may still revert or has, unless the contract took it after it was asked |
| RelayPresence.RevertTakes | zp-relayer/pool/RelayPool.ts:286-303 | when a revert is handled its commitment is present afterwards if and only if it is indexed, whoever else carries it |
| RelayPresence.CheckTakes | zp-relayer/pool/RelayPool.ts:378-392 | one judgement takes a cached transaction away if and only if it is about an expired copy of it and it is not indexed |
| RelayPresence.SecondRevertTakesFirst | zp-relayer/pool/RelayPool.ts:286-303 | an instance: two in flight, the first reverts, the second is sent again, succeeds once and reverts once, and is nowhere |
| RelayPresence.StaleCopyTakesResend | zp-relayer/pool/RelayPool.ts:364-391 | an instance: sent again while the observer holds an expired copy |
| RelayAnswers.ClientSeesEverySend | zp-relayer/services/relayer/endpoints.ts:95-125 | a short answer whose page was fetched in one state and whose cache was read in any later one shows a commitment if and only if it was indexed in the first or is cached in the second |
| RelayAnswers.AnswersExactly | zp-relayer/services/relayer/endpoints.ts:95-125 | every short answer shows a current transaction, whatever happens between the two reads, if and only if it was indexed at the first or the indexer's page is full |
| RelayAnswers.MissedIsIndexed | zp-relayer/services/relayer/endpoints.ts:95-125 | a live transaction that an answer misses is in the indexer's log by then |
| RelayAnswers.ListFirstLosesNothing | zp-relayer/services/relayer/endpoints.ts:95-125 | with the cache read before the page is fetched, a short answer shows everything present at the first read |
| RelayAnswers.AnswerMisses | zp-relayer/services/relayer/endpoints.ts:95-125 | an instance: indexed and removed between the two reads, and the answer is empty |
| RelayAnswers.ObserverFindsIndexed | zp-relayer/pool/RelayPool.ts:354-384 | every entry announced since ten positions before the observer's start is on the page it requests and gets dropped |
| RelayAnswers.WindowIs | zp-relayer/pool/RelayPool.ts:354-376 | the window of the observer in positions |
| RelayAnswers.SendWakesObserver | zp-relayer/pool/RelayPool.ts:265-269 | a send starts the observer unless it runs, ten positions before the confirmed index |
| BatchCache.BatchCache.Take | zp-relayer/services/direct-deposit/BatchCache.ts:62-72 | pops the first entries |
| BatchCache.BatchCache.Execute | zp-relayer/services/direct-deposit/BatchCache.ts:79-120 | the chunked loop ends, pops exactly the shortest prefix that fills a batch, and emits the valid entries of that prefix, unchanged and in order |
| BatchCache.FilterIs | zp-relayer/services/direct-deposit/BatchCache.ts:105-109 | the valid entries of a prefix: each as often as it occurs, no other, in the order of the nonces |
| BatchCache.FilterAt | zp-relayer/services/direct-deposit/BatchCache.ts:105-109 | a valid entry stands behind exactly the valid ones before it |
| BatchCache.PrefixIsShortest | zp-relayer/services/direct-deposit/BatchCache.ts:79-110 | what that prefix is: enough valid entries or the whole cache, and no shorter one |
| BatchCache.BatchCache.ProcessCache | zp-relayer/services/direct-deposit/BatchCache.ts:122-136 | ends with less than a batch, the timer armed exactly if entries remain; what left is emitted in order in non-empty batches of at most the batch size |
| BatchCache.RoundsEnd | zp-relayer/services/direct-deposit/BatchCache.ts:122-129 | the loop ends after some round if and only if the batch size is not zero |
| BatchCache.BatchCache.Add | zp-relayer/services/direct-deposit/BatchCache.ts:141-156 | the same after inserting by nonce |
| BatchCache.InsertAllHolds | zp-relayer/services/direct-deposit/BatchCache.ts:57-60 | adding keeps every cached entry and adds each new one once |
| BatchCache.BatchCache.OnTimer | zp-relayer/services/direct-deposit/BatchCache.ts:49-55 | the timer empties the cache as one batch |
| BatchCache.EveryRunConserves | zp-relayer/services/direct-deposit/BatchCache.ts:79-156 | with any number of interleaved additions, passes of `processCache`, timer calls and executors, everything added is accounted for and no batch is too large |
| BatchCache.InExactlyOnePlace | zp-relayer/services/direct-deposit/BatchCache.ts:79-156 | every added entry is in exactly one of cache, an executor's hand, emitted, rejected |
| BatchCache.TakesFirst | zp-relayer/services/direct-deposit/BatchCache.ts:62-72 | an executor takes the entries with the lowest nonces, as many as its batch lacks |
| BatchCache.JudgeGoesOn | zp-relayer/services/direct-deposit/BatchCache.ts:105-110 | an executor takes another chunk if and only if its batch is not full and the chunk was not cut short |
| BatchCache.FinishEmits | zp-relayer/services/direct-deposit/BatchCache.ts:114-119 | it hands over one batch, unless it is empty |
| BatchCache.StartsExecutor | zp-relayer/services/direct-deposit/BatchCache.ts:122-136 | when an executor starts, with the timer off, and when a pass arms the timer |
| BatchCache.ValidOnesLeave | zp-relayer/services/direct-deposit/BatchCache.ts:79-120 | in every interleaved run, an added entry that no longer waits has left in exactly one batch if it is valid and in none if not |
| BatchCache.NothingForgotten | zp-relayer/services/direct-deposit/BatchCache.ts:44-156 | in every such run a non-empty cache has the timer armed or a call under way that will look at it; once all calls have ended, less than a batch is left, with the timer armed if anything is |

## Left out

Assumptions:

- Signing is collision-free, so a signed transaction stands for its hash; signing,
  `onSend`, Redis and queue calls do not throw, and no process stops between two of
  its writes. A watcher may stop between batches and be restarted (`Watcher.Restart`).
- The chain is not reorganised. A `Message` event has a body, pool indices count up
  by one transaction, and a root covers announced transactions only.
- Commitments are canonical decimal strings and fit 256 bits; transaction hashes
  have 64 digits; transactions are sent while the clock fits 48 bits of milliseconds; nonces of
  deposits are unique in the statements on interleaved executors, and entries of one
  nonce keep their insertion order in the sorted set.
- In the relayer's runs the indexer's log only grows, although an indexer that fails its
  sync empties it (`ContractSync.GapWipes`); transactions are mined and their receipts
  handled in the order of their nonces (`SendProtocol`); handling one receipt is one
  step, which finds the job it belongs to; so is the observer's last look at the cache
  with its end, and a send with its nullifier check, though not with the contract's.
- Gas prices of one service are all legacy or all EIP-1559; factors are exact reals.
- `BatchCache`'s callback and Redis calls do not throw. Validation is a function of the entry in the
  sequential methods and arbitrary in the interleaved runs.

Statements with a side condition, and members that state less than their source:

- EventRanges.GetEvents: demands a batch size of at least one when more than one block is asked for, because zero never ends (`EventRanges.ZeroBatchNeverEnds`).
- BatchCache.BatchCache.ProcessCache: demands a batch size of at least one for the same reason (`BatchCache.RoundsEnd`).
- ContractSync.SyncState: demands a number of rounds after which the loop is over; `ContractSync.SyncCondition` and `ContractSync.NeverEnds` say when there is one. The batch size is at least one.
- ContractSync.SyncCondition: the root is injective and no commitment is the empty leaf, because a gap could go unnoticed otherwise; start and last block are not zero, with which the loop throws.
- Replica.SyncStateFromIndexer: the indexer's snapshot does not change between the pages of one call.
- DefaultPool.EveryRunKeeps: new jobs wait while a revert drains, because the claim fails otherwise (`DefaultPool.UngatedAcceptCorrupts`).
- RelayPresence.NothingDisappears: leaves out a transaction that was not safe to send, because that one can be lost (`RelayPresence.SendIsSafe`).
- RelayAnswers.ClientSeesEverySend: speaks of answers below the limit; a full one says nothing of what it leaves out.
- IndexerService.IndexerServesTheChain: the start meets the condition of `ContractSync.SyncCondition`; the pool holds the events up to the stored block, or the sync brings them in; and without a stored block something is missing or nothing unseen is announced, because the sync is skipped otherwise (`IndexerService.SyncFromNothing`).
- BatchCache.NothingForgotten: demands a batch size of at least one, as `processCache` does.
- State.PoolState.GetVirtualTreeProofInputs: leaves out the secret inputs (two Merkle proofs and the previous leaf) and the optional transfer number, which no caller passes.
- State.PoolState.Wipe: leaves out `jobIdsMapping.clear()`.
- Pool.BasePool.AddTxToState: of direct deposit calldata only the word of the commitment is decoded.
- Pool.BasePool.SetLastConfirmedTxBlock: reading, comparing and writing the Redis value is one step; the source does not await the write.
- SendProtocol.Workers.PoolTxWorkerProcessor: leaves out the hook `onSend`, which `DefaultPool` and `RelayCache` model, and the pausing of the queues.
- SendProtocol.Workers.SentTxWorkerProcessor: of the hooks `onConfirmed` and `onFailed` only the job state is here; `DefaultPool` and `RelayCache` model the rest.
- DefaultPool.DefaultPool.BuildNormalTx: leaves out the calldata, which `Calldata.BuildV1` models, and the tree proof itself.
- DefaultPool.DefaultPool.OnConfirmed: leaves out the callback, which writes the job state.
- RelayCache.RelayPool.OnSend: leaves out the start of the observer, whose rounds are steps of the runs.
- RelayCache.RelayPool.OnFailed: leaves out the job state, which `SendProtocol` models.

Not modelled:

- Hashing, SNARK proofs, Merkle proofs and tree storage below the commitments,
  address recovery, `decodeMemo`.
- HTTP, routes and JSON schemas, Redis and queue transport, logging, configuration,
  price oracles, screening, `HttpListProvider`, the Tron backend.
- Validators other than the nullifier checks, `checkLimits`, `JobIdsMapping`,
  balance waiting and pausing of the queues.
- ABI decoding of direct deposit calldata beyond the static word that holds the
  commitment; `buildDirectDepositTx` calldata.
- `syncState` through the indexer is one `syncStateFromIndexer` call here, without
  the outer loop and the root check, which `ContractSync.SyncState` has.
- `FinalizerPool`: its direct deposit confirmation writes the optimistic log at an
  index of the confirmed one, so the prefix property is not meant to hold there.
- `BatchCache.watchReprocess` and the writers of the reprocess list.
- `numToHex` of numbers below `-16^pad`.
