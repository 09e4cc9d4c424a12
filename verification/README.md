# A verified model of the indexer's core

The indexer reads Cardano blocks (compressor), reduces them to key-value actions (polyphony), stores
them in TiKV and serves them (mapi). This project models the parts where several pieces of state
must move together, and proves what they keep.

- **Storage stage (polyphony).** `StorageActions`, `SyncBatcher`, `Executor`, `RollbackBuffer` and
  `StorageStage` model the action algebra, the batcher, both executors, the buffer and the work unit
  with its retry lock, as classes and loops where the source has them. `Confluence` proves that merged,
  unordered, prefetched batches refine one-by-one execution, and `SyncRuns` carries that to whole syncs
  of immutable and mutable blocks. `RollbackExactness`, `PersistentBuffer`, `BufferAgreement` and
  `RestartRuns` prove that rollbacks restore snapshots over whole runs, each message is committed once,
  and the persisted buffer agrees with memory across restarts and reaches far enough back; `StoredCursor`
  proves that the stored cursor names the buffer's newest point.
- **Reducers.** `UtxoIndex` and `AddressBalance` prove that the index is the unspent set by address
  and the balance the sum of its coins; `IndexSync` proves it of the stored keys after any sync.
- **Chain database (compressor).** `Ledger`, `OrderedTable`, `ChainDb` and `RollStage` model the four
  tables and the feeding stage; `ChainRuns`, `WriteAheadLog`, `LogStream` and `BlockPaging` prove that
  every reachable database is the fold of one valid chain, and what replay, streaming and paging get.
- **Safepoint (tikv-gc).** `Safepoint` and `SafepointRuns`.
- **Serving (mapi, timbre).** `TtlCache` is a machine of caller steps, ticks and cancellations.
  `KeyRanges`, `Addresses`, `DataKeys` and `RollbackKeys` are the byte encodings and their ranges;
  `Scans` and `TxPages` are the batched scan and the paged listing.

TiKV and RocksDB are maps or ordered tables changed by atomic transactions; whether a commit fails, a
reply is too large, a caller is cancelled or the clock advances is a parameter. Hash map iteration
order is an arbitrary listing. Integer widths are written out: additions in the release build wrap.
A Rust panic is the value `Panic`.

Where code and comments differ the model follows the code:

- The comment on the seed of the rollback buffer speaks of the last processed point. In immutable mode
  that point is the block that started the pending batch (`RollbackExactness.SeedNamesItsTip` says
  exactly when it is also the newest).
- A range comment promises an exclusive end slot for Byron addresses; the code includes it, and an end
  slot of 2^64-1 wraps and admits nothing (`KeyRanges.RangeIsExact`).
- The log search is described as a search for a point; it also gives up on points that are there
  (`WriteAheadLog.FoundIff`, and a run that shows it, `RollStage.RollbackHidesLaterPoint`).
- An inverse with an empty value is persisted like a deletion and comes back as one, so after a restart
  a rollback can drop a datum hash (`RestartRuns.EmptyValueIsLost`; `RollbackAcrossRestarts` says what
  holds in every run, `BufferAgreement.ReloadedUndoIsExact` when one block is undone exactly).
- After a roll-back to slot 2^64-1 all metadata is trimmed, and near that slot the switch to mutable mode can
  be missed, as both additions wrap (`BufferAgreement.TrimIsExactIff`, `RollStage.NearIsCloseIff`).
- The safepoint is said to keep the highest common block and the one below it. It keeps the lower one;
  `SafepointRuns.BothBlocksStayIff` says exactly when both stay, `BestBlockIsLost` shows when not.
- A payment credential range is built from the cursor's whole address, which the route does not compare
  with the credential asked for (`DataKeys.LowerCursorLeaksIff`, `ForeignCursor`).
- Stored zeros are deleted by some executor branches and kept by others, so merging can change whether a
  counter at zero is present (`Confluence.NetZeroIsTheOnlyLoss`, `InverseNetZeroIsTheOnlyLoss`).

## Model

| member | source | states |
|---|---|---|
| StorageActions.Merge | services/polyphony/src/model.rs:204-302 | Merging fails exactly when key or kind differ; the merged action keeps key and kind and is never larger than the two it replaces |
| StorageActions.MergeAddsDeltas | services/polyphony/src/model.rs:211-302 | When both running balances fit the counter's width, the merged action's signed delta is the sum of the two, so the 64- and 128-bit additions do not wrap |
| StorageActions.MergeWraps | services/polyphony/src/model.rs:211-302 | Equal-sign deltas of any size add modulo 2^64 or 2^128 |
| SyncBatcher.SyncBatcher.constructor | services/polyphony/src/storage/tikv.rs:383-395 | An empty batcher satisfies the size and count bounds |
| SyncBatcher.SyncBatcher.PushActions | services/polyphony/src/storage/tikv.rs:397-421 | Folds a block into one action per key, and keeps: merged size at most `estimated_bytes`, twice that at most `max_bytes` for two or more blocks, block count at most `max(1, max_len)`; panics exactly if a merge does |
| SyncBatcher.SyncBatcher.Wipe | services/polyphony/src/storage/tikv.rs:423-431 | Empties the batcher and restores the bounds |
| SyncBatcher.SyncBatcher.GetBatchActions | services/polyphony/src/storage/tikv.rs:433-439 | Lists each batched action once, in any order |
| SyncBatcher.SyncBatcher.ShouldFlush | services/polyphony/src/storage/tikv.rs:441-458 | Answers whether the next block would overfill half a raft entry or the block limit |
| SyncBatcher.PushAllAt | services/polyphony/src/storage/tikv.rs:397-421 | Each key's batched action is the merge of that key's own actions, independent of all others |
| SyncBatcher.EnumerationAt | services/polyphony/src/storage/tikv.rs:433-439 | Whatever order the hash map is listed in, a key's share is its one merged action |
| Executor.BatchGet | services/polyphony/src/storage/tikv.rs:1508-1546 | The prefetched map holds exactly the stored values of the keys that are looked up |
| Executor.Perform | services/polyphony/src/storage/tikv.rs:891-1066 | One write, delete or no-op against the transaction |
| Executor.ExecutePlain | services/polyphony/src/storage/tikv.rs:1384-1443 | A batch run against a transaction leaves the store the plain executor specifies, or panics exactly when it does |
| Executor.ExecuteWithInverse | services/polyphony/src/storage/tikv.rs:1384-1443 | The same with inverses: store and inverse list are those specified, in execution order |
| Executor.RunPlainAt | services/polyphony/src/storage/tikv.rs:891-1066 | One-by-one execution treats keys independently |
| Executor.PrefetchTransparent | services/polyphony/src/storage/tikv.rs:1384-1443 | A batch with one action per key run from prefetched values equals one-by-one execution that reads as it goes |
| Executor.InverseBatchAt | services/polyphony/src/storage/tikv.rs:1071-1269 | The inverse executor on a batch writes, key by key, what one action on the stored value writes, and leaves other keys alone |
| Executor.InversesRestore | services/polyphony/src/storage/tikv.rs:1071-1269 | Applying a batch's recorded inverses last first restores the previous store exactly, presence of keys included, and inverses are only Set and Delete |
| Executor.RestoresIgnorePrefetch | services/polyphony/src/storage/tikv.rs:1872-1930 | Executing undo lists never depends on prefetched values and never fails |
| Executor.Counter64Writes | services/polyphony/src/storage/tikv.rs:920-993 | A stored 64-bit counter is incremented modulo 2^64; a decrement to zero or below removes it; a short value panics |
| Executor.Counter128Writes | services/polyphony/src/storage/tikv.rs:994-1066 | A stored 128-bit counter is incremented modulo 2^128; a decrement to zero or below leaves zero; a short value panics |
| Executor.SizeIsWhatIsPut | services/polyphony/src/model.rs:305-315 | The size an action is counted with is the length of the key and the value it puts |
| Confluence.RunCounter | services/polyphony/src/storage/tikv.rs:891-1066 | A counter whose prefix balances stay representable runs without failure and ends at its start balance plus the sum of the deltas |
| Confluence.MergedDeltaIsBalanceChange | services/polyphony/src/model.rs:211-237 | Counter bound: over any number of merged actions the merged delta is the signed balance change since the batch began, so nothing overflows |
| Confluence.ExecutorsAgree | services/polyphony/src/storage/tikv.rs:891-1269 | Plain and inverse executor write the same balance (and the same value for Set, Delete and Insert) |
| Confluence.KeyConfluence | services/polyphony/src/model.rs:204-302 | For one key, merging then executing once agrees with executing the actions one by one, for either executor |
| Confluence.BatchConfluence | services/polyphony/src/storage/tikv.rs:1384-1443 | Batch confluence: any split of a sound action sequence into batches, each merged, listed in any order and executed with prefetched values by either executor, ends in the same store as one-by-one execution (absent counters read as zero), and no merge or executor fails |
| Confluence.NetZeroIsTheOnlyLoss | services/polyphony/src/storage/tikv.rs:920-1066 | Plain executor: presence of a counter key is preserved too, if and only if it is not the case that the deltas cancel, one was not zero, and the key held a stored zero (64-bit) or was absent (128-bit) |
| Confluence.InverseNetZeroIsTheOnlyLoss | services/polyphony/src/storage/tikv.rs:1131-1260 | The same for the executor with inverses, which does not skip zero deltas: presence is preserved if and only if the merged delta is not zero or none of its four cases of kind, direction, stored value and change holds |
| Confluence.ReceiveAndSpendLeavesZero | services/polyphony/src/storage/tikv.rs:1131-1202 | A failing case of the executor with inverses: receiving and spending in one mutable block leaves a stored zero, one by one nothing |
| Confluence.MintAndBurnVanishes | services/polyphony/src/storage/tikv.rs:994-1066 | The failing case: minting and burning one asset in a batch leaves nothing, block by block it leaves a zero |
| RollbackBuffer.RollbackBuffer.FindPosition | services/polyphony/src/rollback/buffer.rs:70-73 | Index of the newest entry of a point |
| RollbackBuffer.RollbackBuffer.AddBlock | services/polyphony/src/rollback/buffer.rs:91-96 | Pushes to the front and keeps the newest 32 |
| RollbackBuffer.RollbackBuffer.PointsSince | services/polyphony/src/rollback/buffer.rs:108-113 | The entries newer than a point, newest first, without draining them |
| RollbackBuffer.RollbackBuffer.RollbackToPoint | services/polyphony/src/rollback/buffer.rs:98-106 | The same entries, drained; the buffer is unchanged for an unknown point |
| Database.Transaction.ScanMetaKeys | services/polyphony/src/storage/tikv.rs:1346-1350 | Some metadata keys of a slot interval, none only if there are none |
| Database.Transaction.DeleteMetaRange | services/polyphony/src/storage/tikv.rs:1328-1373 | The batched delete loop terminates and removes exactly the interval's metadata |
| StorageStage.ApplyRollbackActions | services/polyphony/src/storage/tikv.rs:1271-1321 | Writes each inverse under its point and index, an empty value for a deletion |
| StorageStage.Worker.constructor | services/polyphony/src/storage/tikv.rs:108-127 | A worker starts from the database, the cursor point and the reloaded buffer fed in oldest first |
| RollbackExactness.Drive | services/polyphony/src/storage/tikv.rs:1578-1979 | Rounds of scheduling and execution until one does not fail: later messages wait, a failed round changes only the lock, the worker ends as the last attempt on the untouched worker would leave it, and a committed transaction leaves no lock |
| RollbackExactness.CommitUnlocks | services/polyphony/src/storage/tikv.rs:1598-1979 | In all three branches a unit that transacts and commits gives up the retry lock |
| RollbackExactness.CommitMovesTip | services/polyphony/src/storage/tikv.rs:1729-1977 | After a mutable block or a roll-back its point is the last processed one and the newest in the buffer |
| RollbackExactness.CommitRemembers | services/polyphony/src/rollback/buffer.rs:91-96 | A mutable block shifts the buffer by one and keeps the newest 32 entries |
| RollbackExactness.Serve | services/polyphony/src/storage/tikv.rs:1578-1979 | Over a queue of messages with any faults: each message taken is executed to its commit exactly once and in order before the next is taken, a round without a fault commits one, and only the first message not committed holds the lock |
| StorageStage.Worker.RunRollBack | services/polyphony/src/storage/tikv.rs:1872-1977 | Roll-back branch: commits exactly the specified store, metadata trim, buffer and last point, or changes nothing but the lock |
| StorageStage.Worker.RunImmutable | services/polyphony/src/storage/tikv.rs:1625-1728 | Immutable branch: flushes a full batch first, then starts or grows a batch; a failed commit changes nothing but the lock |
| StorageStage.Worker.RunMutable | services/polyphony/src/storage/tikv.rs:1729-1870 | Mutable branch: flush, apply with inverses, seed, record and collect metadata in one commit, then buffer, last point and batcher |
| StorageStage.Worker.Run | services/polyphony/src/storage/tikv.rs:1598-1979 | All three branches: the worker's state after a commit is the specified one, and after a failure at or before commit only the lock differs |
| RollbackExactness.BackRestoresSnapshot | services/polyphony/src/storage/tikv.rs:1872-1977 | A roll-back succeeds exactly for points in the buffer and then the store is byte for byte the snapshot taken when that point was applied |
| RollbackExactness.ForwardUndoes | services/polyphony/src/storage/tikv.rs:1729-1870 | A block's inverses lead back to the store with the pending batch flushed |
| RollbackExactness.RunStaysAligned | services/polyphony/src/storage/tikv.rs:1729-1977 | Over every run of mutable roll-forwards and roll-backs the buffer's inverses lead from each recorded snapshot to the one before |
| RollbackExactness.RollbackExact | services/polyphony/src/storage/tikv.rs:1729-1977 | Rollback exactness over whole runs: the store after a roll-back is the snapshot of its point; for the seed, the store just after the pending batch was flushed |
| RollbackExactness.SeedIsBatchStart | services/polyphony/src/storage/tikv.rs:1625-1728 | Over every run of immutable blocks: the last point moves only on a flush, to the block that starts the new batch |
| RollbackExactness.SeedNamesItsTip | services/polyphony/src/storage/tikv.rs:1845-1860 | The seed is labelled with the newest block it contains if and only if a flush has happened and that block is alone in the batch |
| RollbackExactness.OpsSizeIgnoresClock | services/polyphony/src/storage/tikv.rs:441-458 | The flush decision does not depend on the wall clock in the info value |
| RollbackExactness.RetriesAreInvisible | services/polyphony/src/storage/tikv.rs:1578-1979 | Exactly-once: any number of attempts that fail at or before commit, then one that does not, has the outcome of that last attempt alone, in all three branches |
| RollbackExactness.OldestIsNeverExecuted | services/polyphony/src/storage/tikv.rs:1845-1860 | No roll-back executes the oldest entry: whatever the seed's dummy inverse is, the database ends the same |
| PersistentBuffer.Reload | services/polyphony/src/storage/tikv.rs:302-366 | The reload loop groups a listing by slot into entries, oldest first |
| PersistentBuffer.ListingUnique | services/polyphony/src/storage/tikv.rs:246-290 | A store has only one listing in key order |
| PersistentBuffer.HistoryIsListed | services/polyphony/src/storage/tikv.rs:1271-1321 | The persisted form of an undo history is listed entry by entry, oldest first, inverses in order |
| PersistentBuffer.ParseHistory | services/polyphony/src/storage/tikv.rs:302-366 | Round trip: parsing a persisted history gives back its entries and their inverse order |
| BufferAgreement.ReloadGivesHistory | services/polyphony/src/storage/tikv.rs:235-366 | The same for any metadata that agrees above slot zero: slot-zero keys leave no trace, entries without inverses do not come back |
| BufferAgreement.PopulateTruncates | services/polyphony/src/storage/tikv.rs:114-121 | Feeding a reloaded list in keeps its newest 32 entries |
| BufferAgreement.CollectKeepsPrefix | services/polyphony/src/storage/tikv.rs:1328-1373 | Slot-based collection keeps a newest-first prefix of the history |
| BufferAgreement.TrimKeepsSuffix | services/polyphony/src/storage/tikv.rs:1447-1506 | Trimming after a point keeps exactly what is at or below it |
| BufferAgreement.ReloadedUnchanged | services/polyphony/src/storage/tikv.rs:334-338 | An entry comes back unchanged if and only if none of its recorded values is empty |
| BufferAgreement.ReloadedUndoIsExact | services/polyphony/src/storage/tikv.rs:1290-1299 | Reloaded inverses undo a block exactly if and only if none of the previous values they restore is empty |
| BufferAgreement.ForwardAgrees | services/polyphony/src/storage/tikv.rs:1800-1865 | A mutable block keeps memory and metadata newest-first prefixes of one history, and metadata reaches back 640 slots from the highest slot applied |
| BufferAgreement.BackAgrees | services/polyphony/src/storage/tikv.rs:1872-1977 | So does a roll-back, also to the origin; it loses no entry within those 640 slots unless the last slot of all was applied |
| BufferAgreement.TrimIsExactIff | services/polyphony/src/storage/tikv.rs:1447-1506 | Trimming keeps exactly the metadata at or below the point, if and only if the point is not at slot 2^64-1, where the addition wraps, or there is none |
| RestartRuns.RestartAgrees | services/polyphony/src/storage/tikv.rs:235-366 | So does every restart, for the history as a reload brings it back: entries without inverses are dropped and empty values have become deletions |
| RestartRuns.StoredMatches | services/polyphony/src/storage/tikv.rs:302-366 | The entries that come back lead from recorded snapshot to recorded snapshot, exactly if none restores an empty value and otherwise up to keys with an empty value |
| RestartRuns.BlankIsConsistent | services/polyphony/src/storage/tikv.rs:108-127 | A worker with an empty buffer and no visible metadata is where every run can start |
| RestartRuns.RunStaysConsistent | services/polyphony/src/storage/tikv.rs:1271-1506 | Buffer agreement over every run of roll-forwards, roll-backs and restarts |
| RestartRuns.RollbackAcrossRestarts | services/polyphony/src/storage/tikv.rs:1872-1977 | After every run, restarts included, a roll-back to a buffered point leaves the snapshot of that point byte for byte if no restart met an entry that restores an empty value, or if the snapshot has none; in any case only keys with an empty value can be missing |
| RestartRuns.RestartReachesBack | services/polyphony/src/storage/tikv.rs:1328-1373 | After any run and a restart every point of the history that has inverses, is among the newest 32 such points and within 640 slots of the highest slot applied is in the buffer, and a roll-back to it succeeds |
| StoredCursor.CursorRoundTrip | crates/timbre/src/encoding/decode.rs:52-64 | The cursor value decodes to its point and height |
| StoredCursor.ReducedOps | services/polyphony/src/storage/tikv.rs:866-884 | A reduced block's actions are those of the reducers in order, then the cursor and the info value |
| StoredCursor.CursorNamesTip | services/polyphony/src/storage/tikv.rs:182-202 | In every run of reduced blocks, roll-backs and restarts the stored cursor decodes to the newest point of the rollback buffer, unless only the seed is left |
| RestartRuns.EmptyValueIsLost | services/polyphony/src/storage/tikv.rs:657-668 | The failing input: a datum hash is announced with an empty value, the datum is supplied in the next block, the process restarts and rolls that block back; the key is gone while the snapshot holds it |
| SyncRuns.PushAllConcat | services/polyphony/src/storage/tikv.rs:397-421 | Merging a block onto a batch is merging the concatenation |
| SyncRuns.RunAccounts | services/polyphony/src/storage/tikv.rs:1625-1870 | A sound sync never panics, and its flushes together with what is pending account for every action, in order |
| SyncRuns.SyncIsOneByOne | services/polyphony/src/storage/tikv.rs:1625-1870 | However immutable and mutable blocks are mixed, batched and flushed, the store with what is pending flushed in any order is that of executing all actions one by one (absent counters read as zero); after a mutable block nothing is pending |
| SyncRuns.FlushedWhenFull | services/polyphony/src/storage/tikv.rs:441-458 | A batch is flushed if and only if the next block would take it over half the byte limit or it has the most blocks it may have |
| UtxoIndex.ReduceBlock | services/polyphony/src/reducers/utxo_cbor_by_address.rs:108-161 | The reducer's loops emit the specified outputs, passing over outputs produced and consumed in the block |
| UtxoIndex.ChainedRefs | services/polyphony/src/reducers/utxo_cbor_by_address.rs:114-137 | The chained references are those both produced and consumed in the block |
| UtxoIndex.ChainedIff | services/polyphony/src/reducers/utxo_cbor_by_address.rs:114-137 | A reference is chained if and only if one transaction of the block makes it and one spends it |
| UtxoIndex.BlockProjects | services/polyphony/src/reducers/utxo_cbor_by_address.rs:108-161 | A ledger-valid block keeps the index the projection of the unspent set, whichever chained outputs are passed over |
| UtxoIndex.ElisionIsInvisible | services/polyphony/src/reducers/utxo_cbor_by_address.rs:133-157 | Passing over chained outputs gives the same index as processing all |
| UtxoIndex.IndexEqualsLedger | services/polyphony/src/reducers/utxo_cbor_by_address.rs:108-161 | After every chain from an empty genesis the index is exactly the unspent set by wanted address |
| IndexSync.KeyEqualsLedger | services/polyphony/src/storage/tikv.rs:800-822 | As storage actions on injective keys: a key's deletions and settings end in the bytes of the unspent output it names, or in nothing |
| IndexSync.StoredIndexEqualsLedger | services/polyphony/src/storage/tikv.rs:800-822 | The stored index equals the ledger after any sync of a valid chain, however its blocks were batched, flushed and applied among the actions of other reducers |
| AddressBalance.ReduceBlock | services/polyphony/src/reducers/balance_by_address.rs:71-95 | The reducer's loops emit, for each transaction its filter lets through, a decrement per distinct input and an increment per output, in order |
| AddressBalance.MatchingAt | services/polyphony/src/reducers/balance_by_address.rs:77-78 | The transaction filter drops exactly what it does not match and keeps the order of the rest |
| AddressBalance.ShareOfKey | services/polyphony/src/storage/tikv.rs:591-603 | An address's counter actions are those of its own outputs, in order |
| AddressBalance.BalanceEqualsLedger | services/polyphony/src/reducers/balance_by_address.rs:71-95 | Over every chain from an empty genesis the executor runs an address's actions one by one without underflow or overflow and the counter is the sum of its unspent coins |
| IndexSync.StoredBalanceEqualsLedger | services/polyphony/src/storage/tikv.rs:591-603 | So is the stored counter after any sync of the chain |
| Ledger.ResolveBlockTxInputs | services/compressor/src/storage/txos/mod.rs:37-94 | Every needed reference from the table, else from the block, marked accordingly; an error exactly if one is nowhere |
| Ledger.ResolveSupplies | services/compressor/src/storage/txos/mod.rs:37-94 | The resolver holds exactly what the transactions need, reference inputs included: unspent outputs as they are, the others as a transaction of the block makes them, flagged so |
| Ledger.StageTxs | services/compressor/src/storage/mod.rs:245-268 | Produced outputs are inserted and consumed ones removed, transaction by transaction |
| Ledger.UnstageTxs | services/compressor/src/storage/mod.rs:373-398 | The reverse loop; an error exactly if a consumed output is repeated or not in the resolver |
| Ledger.BodiesAreKnown | services/compressor/src/storage/mod.rs:245-268 | In a valid block an unspent output keeps the body it was made with, and a spent one never reappears |
| Ledger.UndoBlockRestores | services/compressor/src/storage/mod.rs:338-402 | Undoing a valid block with the resolver built when it was applied restores the output table |
| ChainDb.PruneLog | services/compressor/src/storage/mutable/mod.rs:74-96 | Deletes leading entries below a slot, stopping at the first that is not |
| ChainDb.ChainDb.constructor | services/compressor/src/storage/mod.rs:89-133 | Opening clears the log and takes the last hash from the block table |
| ChainDb.ChainDb.ApplyBlockWithContext | services/compressor/src/storage/mod.rs:189-303 | All tables move together as specified, or an error is reported and nothing changes |
| ChainDb.ChainDb.RollbackTo | services/compressor/src/storage/mod.rs:305-422 | The same for rolling back to a point |
| ChainDb.ChainDb.RollbackOrigin | services/compressor/src/storage/mod.rs:424-518 | The same for rolling back to the origin |
| ChainRuns.ApplyKeepsInvariant | services/compressor/src/storage/mod.rs:189-303 | Applying a valid next block succeeds and keeps: outputs are the genesis set folded through the chain, both tables list the chain, last hash is the tip |
| ChainRuns.RollbackIsExact | services/compressor/src/storage/mod.rs:305-422 | A roll-back to a point on the chain succeeds and leaves the chain up to it; any other point is rejected as invalid; no other error is possible |
| ChainRuns.OriginIsExact | services/compressor/src/storage/mod.rs:424-518 | A roll-back to the origin succeeds and leaves the genesis outputs and empty tables |
| ChainRuns.TablesPair | services/compressor/src/storage/mod.rs:235-279 | Block and resolver tables have the same slots and hashes, position by position |
| ChainRuns.SameTipSameChain | services/compressor/src/storage/mod.rs:201-214 | Chains linked by hash with the same tip are equal, where hashes identify blocks |
| WriteAheadLog.ApplyKeepsLog | services/compressor/src/storage/mod.rs:218-303 | A mutable apply appends one entry and may prune, keeping the log contiguous, replayable, not empty, and every apply entry with exactly the outputs its block needs, as they were just before it |
| WriteAheadLog.AppliedLogIsYoung | services/compressor/src/storage/mutable/mod.rs:74-96 | After it the log starts at most the configured slots below the block, and no entry within them was dropped |
| WriteAheadLog.RollbackKeepsLog | services/compressor/src/storage/mod.rs:305-422 | A mutable roll-back appends one pop per undone block and a mark, keeping the log contiguous and replayable |
| WriteAheadLog.OriginKeepsLog | services/compressor/src/storage/mod.rs:424-518 | The same for the origin |
| WriteAheadLog.PruneKeepsYoung | services/compressor/src/storage/mutable/mod.rs:74-96 | Pruning never removes an entry that is young enough or anything after it |
| WriteAheadLog.ReplayFromEntry | services/compressor/src/storage/mod.rs:189-518 | From the chain after any entry, playing the later entries as stack steps gives the current chain |
| WriteAheadLog.SearchLog | services/compressor/src/storage/mutable/mod.rs:98-119 | The scan from the start that gives up at the first entry at or beyond the slot |
| WriteAheadLog.FoundIff | services/compressor/src/storage/mutable/mod.rs:98-119 | A point is found if and only if it is logged with only lower slots before it |
| WriteAheadLog.RisingLogIsComplete | services/compressor/src/storage/mutable/mod.rs:98-119 | While slots rise every applied or marked point is found |
| WriteAheadLog.AfterIdentified | services/compressor/src/storage/mod.rs:189-518 | The chain after each log entry is made of blocks of the current chain and of the log, so hashes that identify those identify it |
| WriteAheadLog.ReplayFromFound | services/compressor/src/storage/mutable/mod.rs:98-119 | Log replay: for any point found, even on an abandoned fork, the chain ending there plus the entries after it is the current chain |
| RollStage.ReplayAfterRun | services/compressor/src/storage/mutable/mod.rs:98-119 | Log replay in the database after any run of the roll stage |
| RollStage.RollbackHidesLaterPoint | services/compressor/src/storage/mutable/mod.rs:108-116 | A run from an empty database after which the tip is in the log and the search does not find it: a roll-back and then a block at a lower slot |
| RollStage.Stage.Execute | services/compressor/src/sync/roll.rs:56-117 | The mode switches once, near the tip, and the event is carried out in the resulting mode |
| RollStage.NearIsCloseIff | services/compressor/src/sync/roll.rs:56-117 | The mode switch is decided by being fewer than the configured slots from the tip, if and only if the sum does not wrap or the wrapped sum still exceeds the tip |
| RollStage.MutableIff | services/compressor/src/sync/roll.rs:56-117 | After a run the stage is mutable if and only if it was or some event was that close to its tip |
| RollStage.ImmutableKeepsLog | services/compressor/src/sync/roll.rs:56-117 | Immutable events log nothing; a block still uses up a sequence number |
| RollStage.StepKeepsGood | services/compressor/src/sync/roll.rs:56-117 | One event keeps the chain and log invariants; a log that is not empty stays so and only drops old and appends new entries |
| RollStage.RunKeepsGood | services/compressor/src/storage/mod.rs:189-518 | Chain database invariant over every run of events and mode switches, and the log is one interval ending at the last number used |
| RollStage.OpenedIsGood | services/compressor/src/storage/mod.rs:89-133 | A database opened on the tables of a valid chain satisfies the invariants |
| RollStage.RollbackNeverMissesData | services/compressor/src/storage/mod.rs:338-402 | In a reachable state no roll-back reports a missing resolver or output |
| LogStream.PollStream | services/compressor/src/storage/mutable/mod.rs:121-178 | One wake-up: iterate from the last number, skip one, send while contiguous, close on a gap |
| LogStream.PollCatchesUp | services/compressor/src/storage/mutable/mod.rs:150-176 | A wake-up that still finds the last entry sends everything after it, so a lost notification only delays |
| LogStream.StartsFaithful | services/compressor/src/storage/mutable/mod.rs:121-178 | A consumer that starts at a number in the log has missed nothing after it |
| LogStream.RunStaysFaithful | services/compressor/src/storage/mutable/mod.rs:121-178 | Under every interleaving of appends, roll-backs, prunes and wake-ups each later entry is sent once and in order, and the gap error comes only after the last sent entry was pruned |
| LogStream.StageStepIsGrowth | services/compressor/src/sync/roll.rs:56-117 | Every event of the roll stage is such a database step |
| LogStream.FeedStartsGood | services/compressor/src/serve/grpc.rs:225-258 | A consumer may start at any number in the log of a reachable database |
| LogStream.FeedStaysGood | services/compressor/src/serve/grpc.rs:264-278 | Whatever is pulled and whenever the consumer wakes, it was sent what was logged after its start, once and in order, each block with exactly the outputs its transactions need |
| BlockPaging.PageBlocksWithContext | services/compressor/src/serve/grpc.rs:39-170 | The paging code returns the specified page or error |
| BlockPaging.PageIsStretch | services/compressor/src/serve/grpc.rs:88-170 | On a reachable snapshot a page is the next stretch of the chain, each block with its inputs as resolved in the ledger just before it; both mismatch errors are unreachable |
| BlockPaging.FollowListsChain | services/compressor/src/serve/grpc.rs:92-112 | Following the cursor lists the rest of the chain once, in slot order, and ends |
| BlockPaging.UnknownCursor | services/compressor/src/serve/grpc.rs:76-90 | Not-found is answered if and only if the cursor names no block of the chain |
| Safepoint.InstanceChaintip | services/tikv-gc/src/invariants/earliest_chaintip.rs:52-85 | The highest confirmed entry, the latest of that height; none if and only if all are mempool entries |
| Safepoint.EarliestChaintip | services/tikv-gc/src/invariants/earliest_chaintip.rs:13-50 | The least chaintip timestamp over all instances, attained; panics exactly if an instance has no confirmed entry or the clock is behind the result |
| Safepoint.Intersections | services/tikv-gc/src/invariants/network_intersection.rs:34-82 | A common block of greatest height whichever instance comes first, and one just below it if and only if there is one |
| Safepoint.GroupSafepoint | services/tikv-gc/src/invariants/network_intersection.rs:84-139 | The earliest over the instances of the latest timestamps of one block: a common one just below the highest if there is one, else a highest; panics exactly if there is no common block |
| Safepoint.NetworkIntersection | services/tikv-gc/src/invariants/network_intersection.rs:11-156 | The timestamp of some network, and at or before an entry of the protected common block in every instance of every network; panics exactly if a network has no common block |
| Safepoint.NewSafepoint | services/tikv-gc/src/worker.rs:38-106 | At most every chaintip, at least the safe zone behind the clock, and leaving each network its protected block; one of the three bounds is met exactly, and it is exactly the zone behind the clock where the others are not earlier; with chaintips and common blocks everywhere it panics exactly if the clock is behind, and without them always |
| SafepointRuns.Prune | services/tikv-gc/src/worker.rs:114-126 | Deletes exactly the entries with an earlier physical time |
| SafepointRuns.PruningKeepsHealthy | services/tikv-gc/src/worker.rs:114-126 | Pruning at a safe timestamp keeps a confirmed entry in every instance and a common block in every network |
| SafepointRuns.BothBlocksStayIff | services/tikv-gc/src/invariants/network_intersection.rs:98-119 | Both blocks the comment promises to keep: the one below stays, and the best one stays if and only if no instance last refreshed it before the safepoint |
| SafepointRuns.BestBlockIsLost | services/tikv-gc/src/invariants/network_intersection.rs:98-119 | The failing input: two instances go back one block and onto different forks, and collecting at the selected safepoint deletes the best common block |
| SafepointRuns.RunStaysHealthy | services/tikv-gc/src/worker.rs:20-128 | Over every interleaving of cycles and publishes with a fixed instance set no later cycle lacks a chaintip or a common block |
| SafepointRuns.DeletedWasOld | services/tikv-gc/src/worker.rs:73-126 | Over every run an entry that disappears lay before the safe zone of a cycle: nothing at or after `now - zone` is deleted |
| TtlCache.StepKeepsInvariant | services/mapi/src/cache.rs:54-119 | Every step of a caller, tick or cancellation keeps: only the lock holder is past the lock, slots hold the latest outcomes, and whoever refreshes has seen both expired |
| TtlCache.SingleFlight | services/mapi/src/cache.rs:75-119 | At most one refresh at a time, and none starts within `ttl` of the completion of a successful one or `failure_ttl` of a failed one whose caller was not cancelled, for any callers, interleavings and cancellations |
| TtlCache.ResultsAreReal | services/mapi/src/cache.rs:75-119 | Every returned outcome came out of a refresh, a cached one was served while fresh, and a leader's own outcome was stored no earlier than its refresh finished |
| TtlCache.FreshIsServed | services/mapi/src/cache.rs:54-60 | A caller that looks within `ttl` of a stored success is served a success stored no earlier, without a refresh |
| TtlCache.RecentErrorIsServed | services/mapi/src/cache.rs:62-68 | Within `failure_ttl` of a stored failure it is served a failure stored no earlier, without the lock |
| Bytes.OrderIsNumeric | crates/timbre/src/encoding/encode.rs:487-513 | Big-endian numbers of one width sort as numbers |
| KeyRanges.RangeIsExact | crates/timbre/src/encoding/encode.rs:622-970 | A key is in a subject's range if and only if it is the subject's and its item meets the bounds (cursors excluded, slots included, an end slot of 2^64-1 admits nothing) |
| KeyRanges.PrefixKeyRange | crates/timbre/src/encoding/namespace.rs:41-57 | The loop computes the raised prefix, empty if all bytes are 255 |
| KeyRanges.PrefixRangeIsExact | crates/timbre/src/encoding/namespace.rs:41-57 | The range contains exactly the keys with the prefix |
| Addresses.ShelleyRoundTrip | crates/timbre/src/encoding/encode.rs:983-1031 | Decoding an encoded address, whatever follows, gives it back with a canonical network, and the network was canonical if and only if nothing changed |
| Addresses.ShelleyReencodes | crates/timbre/src/encoding/decode.rs:448-498 | What decodes re-encodes to the bytes read, up to the unchecked break byte |
| Addresses.ShelleyLayout | crates/timbre/src/encoding/encode.rs:983-1031 | The bytes of a Shelley address: network, kind and hash of the payment part, break, kind and content of the delegation part |
| Addresses.ByronRoundTrip | crates/timbre/src/encoding/encode.rs:1055-1080 | Byron encodings are self-delimiting: bytes up to 3000, else the digest |
| Addresses.ByronLayout | crates/timbre/src/encoding/encode.rs:1055-1080 | Up to 3000 bytes a Byron address is in the key with its length, beyond that only its digest is |
| Addresses.AddressRoundTrip | crates/timbre/src/encoding/encode.rs:1082-1103 | The same for addresses with a type byte |
| DataKeys.PrefixFree | crates/timbre/src/encoding/encode.rs:170-306 | No subject's prefix begins another's, across instances, tags and subjects |
| DataKeys.PrefixLayout | crates/timbre/src/encoding/encode.rs:35-66 | The leading bytes of an index key are dataplane, instance, the data tag and the index's own tag |
| DataKeys.UtxoKeyRoundTrip | crates/timbre/src/encoding/decode.rs:112-195 | UTxO keys decode to their subject and item |
| DataKeys.UtxoKeysInjective | crates/timbre/src/encoding/encode.rs:170-306 | Two UTxO keys are equal only if instance, subject and item are |
| DataKeys.TxKeyRoundTrip | crates/timbre/src/encoding/decode.rs:314-341 | Transaction keys decode to their address and item |
| DataKeys.SubjectRangeIsExact | crates/timbre/src/encoding/encode.rs:622-970 | A stored key lies in an address, asset or policy range if and only if instance and subject match and the slot or cursor bounds hold |
| DataKeys.CredentialRangeContains | crates/timbre/src/encoding/utxos_by_payment_cred.rs:22-85 | For all cursors, also of another credential, exactly which UTxO keys a payment credential's range contains |
| DataKeys.RangeKeepsToCredential | crates/timbre/src/encoding/utxos_by_payment_cred.rs:22-85 | Without cursors, or with a lower one whose network and payment part are not before those asked for and an upper one not after them, only keys of the credential are returned |
| DataKeys.LowerCursorLeaksIff | crates/timbre/src/encoding/utxos_by_payment_cred.rs:22-85 | The range after a cursor returns a key of another credential if and only if the cursor's network and payment part are before those asked for and a key is left between the two |
| DataKeys.ForeignCursor | crates/timbre/src/encoding/utxos_by_payment_cred.rs:22-85 | The failing input: asked for a script, a cursor at the key with the same hash lets in every later key credential |
| DataKeys.CredentialRangeIsExact | crates/timbre/src/encoding/utxos_by_payment_cred.rs:22-85 | So with cursors of the credential itself a UTxO key is in the range if and only if network and payment part match and it is strictly between the cursors |
| DataKeys.CursorRoundTrip | crates/timbre/src/encoding/utxos_by_payment_cred.rs:101-157 | A payment credential cursor decodes to itself |
| DataKeys.CursorReencodes | crates/timbre/src/encoding/utxos_by_payment_cred.rs:117-157 | Whatever decodes is a cursor's encoding, up to the unchecked break byte |
| RollbackKeys.MetaRoundTrip | crates/timbre/src/encoding/decode.rs:66-97 | Rollback metadata keys decode to what was encoded |
| RollbackKeys.MetaOrder | crates/timbre/src/encoding/encode.rs:487-513 | Byte order of metadata keys is the order by slot, hash, index and key that the reload relies on |
| RollbackKeys.MetaRangeIsExact | crates/timbre/src/encoding/encode.rs:556-602 | A metadata range selects exactly its own instance's keys of the slot interval |
| RollbackKeys.DataIsOutside | crates/timbre/src/encoding/encode.rs:556-602 | No key with another third byte, and so no index or cursor key of any instance, lies in a metadata range |
| RollbackKeys.InfoKeyInside | crates/timbre/src/encoding/encode.rs:93-96 | An info key lies in a metadata range if and only if it is that of dataplane 82 and instance 96, the range is of dataplane 73 and instance 96, and it has no lower slot |
| RollbackKeys.OwnInfoKeyIsOutside | crates/timbre/src/encoding/encode.rs:93-96 | So an instance's own info key never does |
| Scans.Advance | services/mapi/src/utils.rs:1630-1650 | Restarting after the last key fetched leaves exactly the rest of the listing, in either order |
| Scans.ScanExtended | services/mapi/src/utils.rs:1590-1695 | Terminates with the first `max_count` matching entries of the range in the chosen order, whatever replies were too large |
| Scans.FilteredAt | services/mapi/src/utils.rs:1590-1695 | Filtering keeps every wanted pair as often as it was there and no other |
| TxPages.ParseSlotPageParams | services/mapi/src/utils.rs:1310-1382 | Each bad request with its own error, otherwise the bounds with the cursor in place of the one it has passed |
| TxPages.FirstFaultIsReported | services/mapi/src/utils.rs:1310-1382 | A request is refused if and only if it has one of six faults, and with the first one it has |
| TxPages.BuildPage | services/mapi/src/routes/addresses/txs_by_address.rs:127-153 | The page loop returns the first `count` entries and a cursor exactly if there is another |
| TxPages.TxsByAddress | services/mapi/src/routes/addresses/txs_by_address.rs:76-164 | The whole handler: bad request or page |
| TxPages.AllMatch | services/mapi/src/routes/addresses/txs_by_address.rs:107-125 | The entries scanned are exactly the address's transactions within the slots |
| TxPages.FollowListsAll | services/mapi/src/routes/addresses/txs_by_address.rs:107-153 | Pagination completeness: following the cursor, ascending or descending with any bounds, lists every matching transaction once, in order, and ends |

## Left out

- TiKV, RocksDB, Redis and gRPC clients: atomic transactions over maps, sorted sets and ordered tables stand for them.
- Block and transaction decoding, CBOR, hashing and Base64url: blocks are records with hashes, an output's address and coin are read by given functions, cursors are the bytes their text stands for.
- Failures after a commit: the lock is already cleared then, so the retry property covers failures at or before the commit.
- An immutable block after a mutable one: rollback properties are about runs in which the mode does not go back.
- Genesis outputs are inserted again at every start, which brings spent ones back; the chain database invariant is about one process run, and the reducers' about chains from an empty genesis.
- RollbackExactness.RetriesAreInvisible: compares with the successful attempt alone, at its own clock and listing order, because the info value carries the wall clock and the hash map order is arbitrary; `Drive` ties it to the worker.
- AddressBalance.BalanceEqualsLedger: asks that an address never owns 2^64 or more, and is about the reducer without a transaction filter, with which a balance is no sum of unspent coins.
- WriteAheadLog.ReplayFromFound: asks that hashes identify the blocks of the client, of the current chain and of the log, as a hash function is taken to do.
- IndexSync.StoredIndexEqualsLedger: index keys are an injective function of address, slot and reference; `DataKeys.UtxoKeysInjective` is that for the encoded keys, while parsing an address is a given function.
- DataKeys.LowerCursorLeaksIff: is about a lower cursor, the only one the code passes; for upper cursors `RangeKeepsToCredential` gives a sufficient condition.
- Scans.ScanExtended: the timeout is not modelled.
- The scan loop that fetches the metadata for a reload: the reload gets a complete listing.
- Sequence numbers of the log are unbounded, as 2^64 appends are out of reach.
- `decode_block_by_height_key` and `decode_height_by_block_hash_key`: their tag check differs from the encoder's, so there is no round trip.
- Cursor exclusivity for mint metadata: its lower cursor is inclusive, unlike the others.
- Paranoid verification, instance advertising, metrics, health endpoints, configuration and logging.
- Other reducers and fixed-layout value codecs: the same pattern with easier proofs.
- db-sync and Ogmios routes, OpenAPI responses, CIP-25 and CIP-68 shaping, the daw command line.
