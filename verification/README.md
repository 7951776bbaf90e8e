# Nightfrost: the index agrees with the chain

Nightfrost replays the finalized blocks of a chain into an ordered key-value store and serves that store to wallets. This
project models the parts whose correctness spans many steps and proves them about every run:

- **The block writer** (`IndexModel`, `BlockWriter`, `UtxoInvariant`, `ContractInvariant`, `EventInvariant`,
  `RangeInvariant`, `IndexInvariants`, `TransactionRows`). `IndexModel` says what a block means by applying its transactions one after the
  other. `BlockWriter` builds the one deferred, write-only batch with its in-block caches and refines that meaning. The
  invariants hold in every store that any valid run reaches.
- **Backfills and migration** (`WalletSidecars`, `DustBackfill`, `ContractEvents`, `ContractStatesMigration`): resumable
  rebuilds, with every commit and every crash image described. `Agreement` shows that what they rebuild is what the live
  writer has.
- **The retention window** (`RetentionWindow`): garbage-collection roots across blocks, crashes and restarts.
- **The block stream** (`BlockStream`): speculative parallel catch-up, the backward walk near the tip, live blocks, and the
  parent guard over resubscriptions to an arbitrary node.
- **Wallet feeds** (`ShieldedSync`, `PollFeeds`) over a growing chain, with block commits between any two reads of a poll.
- **Cursor pagination** (`KeyEncoding`, `Cursor`, `Pagination`, `PageWalk`, `LiveListings`): byte keys and their order,
  signed cursors, one page, whole walks, and walks over stores that the block writer keeps extending.
- **Bech32** (`BitGroups`, `ExclusiveOr`, `Bech32`, `GeneratorPolynomial`): BIP-173 and BIP-350 strings, with the 32-bit
  accumulator, and the checksum as a remainder of polynomials over GF(32).
- **The faucet** (`Faucet`): the claim protocol between the HTTP process and its wallet workers.

Store model: each partition is an ordered map, a batch is a list of operations applied atomically in which the last write of
a key wins, and a crash keeps some prefix of the batches committed since the last sync; opening the store recovers that prefix
and syncs it (vendor/fjall/src/keyspace.rs:617-618). Partitions are typed maps keyed by tuples; `KeyEncoding` shows that the
byte keys are injective and ordered like the tuples they stand for, and pagination works on the byte keys themselves.

Assumptions about code outside the model appear as `requires` clauses or as function parameters: what ledger replay
guarantees of a transaction (`ValidTx`: created UTXOs are fresh, spent ones are live and match their creation, the Zswap
tree grows by the transaction's ZswapOutput events), the hash of state blobs, MAC, digest and base64 as functions, node
answers, and that the authority set changes only across a block that carries a NewSession event. Such hypotheses about blocks
speak of the blocks that exist, on any fork, and `BlockStream.ChainHolds` shows a chain with a session change that meets them.

## Where the code does not meet the plain reading

Each of these is stated with a concrete input and the exact condition under which the property holds.

- A relevant transaction that added no shielded outputs may never be delivered by the shielded feed; whether it is depends on
  when the wallet polls (`ShieldedSync.EmptyTransactionDependsOnPolls`). It is delivered under every schedule if and only if
  it moved the tree's end (`ShieldedSync.AlwaysDeliveredIff`); `ShieldedSync.Advances` says so for one schedule.
- `backfill_contract_events` panics on a clean log exactly when its contract events span more than 10,000 transactions,
  because it empties its cache just before it indexes it (`ContractEvents.BackfillContractEvents`, `PanicWitness`).
- The DUST feed delivers an event twice exactly when a poll found fewer events than it asked for and one of them at or
  beyond the highest id it had read first; the wallet's filter lets it through (`PollFeeds.RedeliversIff`, `Redelivery`).
- The unshielded feed delivers each own transaction once exactly when it is the latest with its hash
  (`PollFeeds.UpdatesExact`, `DuplicateHash`).
- A scope part of 2^32 bytes or more would collide with empty parts, because its length is cast to u32
  (`KeyEncoding.ScopeCollision`). No query that the API accepts is that long; below that length scopes are injective.

## Model

| member | source | states |
|---|---|---|
| BlockWriter.Store.WriteBlock | crates/nightfrost-chain/src/pipeline.rs:688-1052 | one deferred batch with in-block caches leaves the store that applying the transactions directly, one by one, would leave, while balances fit the i128 arithmetic; it fails exactly on a missing spent UTXO, and no state blob is ever written twice in the whole run |
| BlockWriter.QueueBlock | crates/nightfrost-chain/src/pipeline.rs:696-1048 | the queued operations, applied in order to the store before, have that effect, and each blob among them is new to the store and queued once |
| BlockWriter.WriteTransactions | crates/nightfrost-chain/src/pipeline.rs:709-951 | after any number of transactions the batch and the caches together stand for the directly indexed store, although the batch cannot be read |
| BlockWriter.WriteCreated | crates/nightfrost-chain/src/pipeline.rs:738-756 | created UTXOs reach the batch, the cache, the net balance changes and the touched addresses alike |
| BlockWriter.WriteSpent | crates/nightfrost-chain/src/pipeline.rs:758-785 | a spent UTXO is found in the cache or the store, and the writer stops exactly when direct application finds none |
| BlockWriter.WriteActions | crates/nightfrost-chain/src/pipeline.rs:788-847 | actions, blobs and contract pointers agree with direct application, with blobs skipped when stored or already queued |
| BlockWriter.Correlate | crates/nightfrost-core/src/domain.rs:490-512 | the id of an action exactly when that is the only Call of the event's address and entry point among the transaction's actions, and none when no action or several match |
| IndexModel.EmittersAre | crates/nightfrost-core/src/domain.rs:490-512 | the candidates for an event, field by field: the positions, ascending, whose address is the event's and whose attributes are a Call of its entry point |
| IndexModel.EmitterIdIs | crates/nightfrost-core/src/domain.rs:490-512 | a stored event gets the id of the only matching action, and otherwise keeps the one it carried |
| BlockWriter.WriteEvents | crates/nightfrost-chain/src/pipeline.rs:849-932 | the event log, per-contract index, DUST feed and DUST generation indexes get exactly the direct effect of the events |
| BlockWriter.WriteBalances | crates/nightfrost-chain/src/pipeline.rs:953-967 | the i128 arithmetic settles every touched balance or stops at a negative one, whatever the order of the hash map |
| BlockWriter.WriteHistory | crates/nightfrost-chain/src/pipeline.rs:969-974 | the history index gains exactly the touched addresses with their transactions |
| BlockWriter.SettlesExactly | crates/nightfrost-chain/src/pipeline.rs:963-966 | wrapped i128 sums are the exact balances, and never negative, when the exact balances lie in [0, 2^127) |
| UtxoInvariant.IndexUtxosKeeps | crates/nightfrost-chain/src/pipeline.rs:738-785 | after any transaction each balance is the total of the owner's unspent values and the unspent index holds exactly their keys |
| UtxoInvariant.BalancesNonNegative | crates/nightfrost-chain/src/pipeline.rs:963-965 | no stored balance is negative, so "balance underflow" can only mean overflow of a live total |
| Agreement.LiveTotalsInRange | crates/nightfrost-chain/src/pipeline.rs:953-967 | in every reachable store whose live totals stay below 2^127 all balances are in the range where the writer is exact |
| Agreement.NoUnderflow | crates/nightfrost-chain/src/pipeline.rs:963-965 | on a reachable store a valid block that leaves live totals below 2^127 meets the writer's conditions: every spent UTXO is found and "balance underflow" cannot fire |
| Agreement.IndexRun | crates/nightfrost-chain/src/pipeline.rs:688-1052 | the batched writer, block after block on a new store, passes through exactly the stores of the history while live totals stay below 2^127, and no blob is ever written twice |
| ContractInvariant.IndexActionsKeep | crates/nightfrost-chain/src/pipeline.rs:787-847 | deploy and latest are the first and last action of a contract that have a state, and every referenced blob is stored under its own hash |
| ContractInvariant.LatestStateReadable | crates/nightfrost-api/src/routes/entities.rs:651-690 | the state of a listed contract can always be read, is not empty and hashes to the recorded hash |
| EventInvariant.IndexEventsKeep | crates/nightfrost-chain/src/pipeline.rs:849-932 | every event side index is the fold of the event log, whatever the order and number of transactions |
| EventInvariant.RebuildContains | crates/nightfrost-chain/src/pipeline.rs:869-930 | membership of each side index read off the log: DUST feed, per-contract index, DUST owners |
| EventInvariant.RebuildLastWrite | crates/nightfrost-chain/src/pipeline.rs:895-931 | the generation record of a hash is that of the last generation event for it |
| RangeInvariant.IndexTxKeepsRanges | crates/nightfrost-chain/src/pipeline.rs:709-712 | event ranges of transactions partition the event ids, with matching back pointers for events and actions |
| RangeInvariant.IndexTxKeepsWallet | crates/nightfrost-chain/src/pipeline.rs:714-722 | each transaction starts in the Zswap tree where its predecessor ended and advances it by its output events |
| IndexInvariants.IndexBlockKeeps | crates/nightfrost-chain/src/pipeline.rs:981-1050 | a valid block keeps all invariants, including that blocks partition the transaction ids and stored heights form one hash-linked chain |
| IndexInvariants.ReachableInv | crates/nightfrost-chain/src/pipeline.rs:688-1052 | every store that any valid run from scratch reaches, hence also any crash between blocks, satisfies every invariant |
| IndexInvariants.RunGoesOn | crates/nightfrost-chain/src/pipeline.rs:688-1052 | indexing is never stuck: every run continues with every valid next block, whatever was indexed before |
| IndexInvariants.TxHasOneBlock | crates/nightfrost-chain/src/pipeline.rs:982-990 | a transaction lies in the id range of exactly the block at its recorded height |
| IndexInvariants.EventHasOneTx | crates/nightfrost-chain/src/pipeline.rs:934-950 | an event lies in the range of exactly the transaction it points to |
| IndexInvariants.ReachableEvents | crates/nightfrost-chain/src/pipeline.rs:849-932 | in every reachable store the event side indexes are the fold of its event log |
| IndexInvariants.ReachableVersions | crates/nightfrost-chain/src/pipeline.rs:714-722 | a wallet index row carries the protocol version of its transaction's block |
| TransactionRows.ReachableRecords | crates/nightfrost-chain/src/pipeline.rs:946-947 | in every reachable store a transaction row lists a UTXO as created or as spent exactly when the UTXO's record names that transaction as its creation or its spending; the history, identifier and hash indexes hold exactly what the rows say |
| TransactionRows.ReachableRows | crates/nightfrost-chain/src/pipeline.rs:738-951 | the same for all rows at once, and a block hash leads to the latest block with that hash and to nothing else |
| TransactionRows.IndexTxKeepsRows | crates/nightfrost-chain/src/pipeline.rs:738-951 | one transaction with fresh created and live spent UTXOs keeps that agreement |
| TransactionRows.RunIsLogged | crates/nightfrost-chain/src/pipeline.rs:709-951 | whatever replay handed over for any block of the run, its transactions, events and actions, field by field, is in every later store, unchanged |
| WalletSidecars.BackfillWalletSidecars | crates/nightfrost/src/backfill.rs:124-230 | from any state a crash of an earlier attempt left, the side indexes end up as the live writer has them, the final equality check passes, and every commit is resumable; on any store that check fails exactly when every record is there and the outputs of the remaining transactions do not lead to the current end of the tree |
| WalletSidecars.BackfillTxs | crates/nightfrost/src/backfill.rs:159-204 | the positions of the transactions not covered yet are rebuilt up to the current end of the tree |
| Agreement.LiveStoreIndexed | crates/nightfrost/src/backfill.rs:124-230 | every reachable store meets what that backfill relies on |
| DustBackfill.BackfillDustGeneration | crates/nightfrost/src/backfill.rs:249-379 | whatever the indexes held and wherever an earlier attempt crashed, the four interleaved streams end in the last-write-per-hash fold of the event log; every commit keeps the entries common to start and end, has none foreign to both, and only old records or ones the log asks for |
| DustBackfill.ScanEvents | crates/nightfrost/src/backfill.rs:260-289 | the scan collects writes whose last one per hash is the fold of the log |
| DustBackfill.Streams.Finished | crates/nightfrost/src/backfill.rs:334-372 | merging the four streams in any interleaving ends in the same indexes |
| Agreement.DustMatchesLive | crates/nightfrost/src/backfill.rs:249-379 | the rebuild of the DUST indexes equals what the live writer maintains |
| ContractEvents.BackfillContractEvents | crates/nightfrost/src/backfill.rs:28-114 | on a clean log it succeeds if and only if the contract events span at most 10,000 transactions, otherwise it panics with a prefix of the work committed; each event is attributed from its transaction's stored actions |
| ContractEvents.Lookup | crates/nightfrost/src/backfill.rs:60-81 | the cached actions of a transaction are those stored, and the lookup panics exactly when the cache overflows |
| ContractEvents.AttributedTwice | crates/nightfrost/src/backfill.rs:83-99 | attributing twice changes nothing, so a rerun is harmless |
| ContractEvents.Resume | crates/nightfrost/src/backfill.rs:28-114 | a rerun after a partial run has the effect of one run |
| ContractEvents.PanicWitness | crates/nightfrost/src/backfill.rs:76-81 | a clean log with 10,001 contract transactions does not fit |
| Agreement.ReachableAttributed | crates/nightfrost-chain/src/pipeline.rs:857-868 | in every reachable store each event carries what attribution computes from the stored actions of its transaction |
| Agreement.ReachableEmitter | crates/nightfrost-chain/src/pipeline.rs:857-868 | a stored event names an action exactly when that is the only action of its transaction with its address and a Call of its entry point |
| Agreement.BackfillMatchesLive | crates/nightfrost/src/backfill.rs:28-114 | from rows without attribution, or from its own result, the backfill produces exactly the live writer's events and index entries |
| Agreement.ReachableClean | crates/nightfrost/src/backfill.rs:28-114 | every reachable store is a clean log, attributed or not, so there the backfill fails only by overflowing its cache |
| ContractStatesMigration.BackfillContractStates | crates/nightfrost/src/backfill.rs:399-532 | one attempt on a store opened on any sound image: every image that a crash can leave on the way is sound, and it ends with schema 2, v2 equal to the hashed image of the legacy partition, and that partition deleted |
| ContractStatesMigration.SoundReadable | crates/nightfrost-core/src/store.rs:266-288 | in every sound image the actions and states readable through the partition that the schema selects are the original ones |
| ContractStatesMigration.SoundCutover | crates/nightfrost/src/backfill.rs:510-532 | after the cutover v2 is the hashed image of the legacy partition |
| ContractStatesMigration.MigrateOne | crates/nightfrost/src/backfill.rs:452-488 | one action is migrated; the batch holds its blob afterwards unless the store has it, and every blob of the batch is new to the store and queued once |
| ContractStatesMigration.RunAttempts | crates/nightfrost/src/backfill.rs:399-532 | any number of attempts, each crashed at any moment, and a last one that completes: in every image on the way all actions and states are readable and unchanged, the legacy partition exists as long as the schema is below 2, and the end is the cut-over hashed image |
| ContractStatesMigration.Attempt | crates/nightfrost/src/main.rs:291-298 | opening the store and one attempt, cut short or not, leave an image from which the next one can start |
| ContractStatesMigration.Reclaim | crates/nightfrost/src/backfill.rs:405-419 | the legacy partition is deleted only when no image from before the cutover can come back, and then every image stays sound |
| ContractStatesMigration.Keyspace.Open | vendor/fjall/src/keyspace.rs:603-618 | opening recovers one image and syncs it, so no earlier one can come back |
| Agreement.UnmigratedSound | crates/nightfrost-core/src/store.rs:266-288 | a schema-1 store that was never migrated is a sound start |
| Agreement.MigrationMatchesLive | crates/nightfrost/src/backfill.rs:399-532 | migrating the inline form of a reachable store gives that store's own action records |
| RetentionWindow.Indexer.IndexBlock | crates/nightfrost-chain/src/pipeline.rs:499-509 | persist, commit, unpersist: the stored and in-memory windows agree, hold at most 32 keys, and every crash in between leaves each stored key with at least its multiplicity of roots |
| RetentionWindow.Indexer.CrashAndRestart | crates/nightfrost-chain/src/pipeline.rs:113-141 | after any crash and restart the invariant holds again with at most one more spare root per crash, no stored key is lost, and no earlier state can come back |
| RetentionWindow.Run | crates/nightfrost-chain/src/pipeline.rs:113-259 | over any sequence of blocks, collection flushes and crashes, also in the middle of a block: the windows agree and hold at most 32 keys, each stored key has at least its multiplicity of roots, and the excess is at most the number of crashes plus one |
| RetentionWindow.Indexer.Persist | crates/nightfrost-core/src/domain/ledger/ledger_state.rs:337-384 | the flush adds the new root and applies the buffered decrements, and leaves a covered store |
| RetentionWindow.Indexer.CommitBlock | crates/nightfrost-chain/src/pipeline.rs:1002-1009 | the stored window becomes the newest 32 keys including the new one |
| RetentionWindow.Indexer.Unpersist | crates/nightfrost-chain/src/pipeline.rs:247-259 | exactly the keys beyond the newest 32 are dropped and buffered for a decrement |
| RetentionWindow.Indexer.FlushDecrements | crates/nightfrost-core/src/domain/ledger/ledger_state.rs:486-490 | a collection pass that flushes the buffered decrements keeps the invariant |
| RetentionWindow.RepairRootCounts | crates/nightfrost-core/src/domain/ledger/ledger_state.rs:2345-2405 | a count ends below its multiplicity in the window exactly for the keys of the window that are no longer roots and have nodes missing, which keep a count of zero and are counted as culled; every other count is raised to the multiplicity, and none is lowered |
| RetentionWindow.TrimOnce | crates/nightfrost-chain/src/pipeline.rs:1007-1009 | trimming conserves roots: what leaves the window is exactly the oldest key |
| BlockStream.ConsumeChunk | crates/nightfrost-chain/src/subxt_node.rs:244-270 | a chunk made against one cache is consumed in order up to the first NewSession, and every block kept has the author its own state names |
| BlockStream.FetchChunk | crates/nightfrost-chain/src/subxt_node.rs:231-242 | the speculative blocks of a chunk, or an error when one height is missing |
| BlockStream.CatchUp | crates/nightfrost-chain/src/subxt_node.rs:213-271 | each chunk advances by at least one block, the blocks yielded are the chain by height, and an error names a missing or unlinked height of the chunk |
| BlockStream.CatchUpIsOneByOne | crates/nightfrost-chain/src/subxt_node.rs:213-271 | speculation, discarding and refetching are invisible: same blocks, same authors, same order as fetching one at a time, when the set changes only across a block with a NewSession event |
| BlockStream.MadeFromCache | crates/nightfrost-chain/src/subxt_node.rs:484-500 | among the blocks that exist, a cached authority set gives the author that the block's own state gives, and the cache stays right for the next block |
| BlockStream.BackwardWalk | crates/nightfrost-chain/src/subxt_node.rs:273-288 | the walk returns parents down to a stop hash, and on a canonical chain exactly the blocks in between |
| BlockStream.FinalizedBlocks | crates/nightfrost-chain/src/subxt_node.rs:167-339 | on a canonical chain every height after the stored block up to the first finalized one is yielded once and in order, then every live block, also when the first finalized block is the stored one; while they form a chain, each has its own author |
| BlockStream.Guard | crates/nightfrost-chain/src/pipeline.rs:357-376 | exactly the longest prefix of blocks each of which is a child of the one before passes |
| BlockStream.NodeBlocks | crates/nightfrost-chain/src/pipeline.rs:347-378 | over any sequence of subscriptions to arbitrary nodes the accepted blocks are one hash-linked chain with the right authors, at exactly the heights after the stored block when headers number themselves one above their parent; and a node with a canonical chain on top gets every height up to its first block accepted, and after it the live blocks as long as each is a child of the one before |
| BlockStream.Subscribe | crates/nightfrost-chain/src/pipeline.rs:353-376 | one subscription: what is accepted is a chain on the last block; on a canonical chain it is every height up to the first finalized block and then the longest prefix of the live blocks in which each is a child of the one before |
| BlockStream.AllLiveAccepted | crates/nightfrost-chain/src/subxt_node.rs:299-317 | live blocks that form a chain on the first finalized block are all accepted, behind the blocks caught up |
| BlockStream.LiveAcceptedAtOnce | crates/nightfrost-chain/src/subxt_node.rs:299-317 | also when that block is already stored and there is nothing to catch up with |
| BlockStream.SafeMargin | crates/nightfrost-chain/src/subxt_node.rs:198-212 | what is fetched by height lies 400 blocks below the first finalized block |
| BlockStream.AcceptedHeights | crates/nightfrost-chain/src/pipeline.rs:93-105 | accepted blocks have exactly the next heights, without gap, when headers number themselves one above their parent |
| BlockStream.ChainHolds | crates/nightfrost-chain/src/subxt_node.rs:484-500 | the hypotheses about nodes and blocks hold of a chain on which a session does change the authority set |
| BlockStream.ChainCatchesUp | crates/nightfrost-chain/src/subxt_node.rs:198-339 | that node has a canonical chain to every height, so it catches up from scratch or from any block below |
| BlockStream.ChainWalk | crates/nightfrost-chain/src/subxt_node.rs:273-288 | on that chain the backward walk passes every block between any stop block and any later one |
| BlockStream.StaleAuthor | crates/nightfrost-chain/src/subxt_node.rs:235-242 | the speculative block after the session has a wrong author there, so discarding it is necessary |
| BlockStream.DropDuplicates | crates/nightfrost-chain/src/subxt_node.rs:386-405 | what passes is strictly increasing, and every dropped block was not above one that had passed |
| ShieldedSync.ScanRelevance | crates/nightfrost-api/src/routes/entities.rs:1606-1662 | below a key's progress an entry exists exactly when the transaction is regular and its trial decryption at its recorded version succeeds, after every commit and so after any crash |
| ShieldedSync.ReadIndependent | crates/nightfrost-api/src/routes/entities.rs:1757-1762 | what is read below the target does not depend on how far other requests or crashed scans came |
| ShieldedSync.ListingIsRelevant | crates/nightfrost-api/src/routes/entities.rs:1757-1762 | what a scanned key's listing holds below the target is the relevant transactions, of the chain now and however it grows |
| ShieldedSync.WalletShieldedSync | crates/nightfrost-api/src/routes/entities.rs:1692-1831 | one whole request, scan and answer: the response is that for the relevant transactions of the chain, whatever earlier requests and crashes left |
| ShieldedSync.ShieldedSync | crates/nightfrost-api/src/routes/entities.rs:1755-1831 | the loop over stored entries delivers the relevant transactions below the target, and closes the gap to the tree's end |
| ShieldedSync.SyncRefuses | crates/nightfrost-api/src/routes/entities.rs:1745-1778 | on ordered rows a request is refused exactly when it starts beyond the tree, or else strictly inside the range of a relevant transaction below the target; no other error occurs |
| ShieldedSync.SyncAtBoundary | crates/nightfrost-api/src/routes/entities.rs:1755-1831 | from a transaction boundary the "inside a relevant transaction" error cannot occur, updates tile the range without gap or empty gap, and transactions are delivered whole, once, in order |
| ShieldedSync.DeliveredIds | crates/nightfrost-api/src/routes/entities.rs:1770-1817 | a transaction is delivered exactly when it advances the tree beyond the wallet and beyond every earlier relevant one |
| ShieldedSync.RunTiles | examples/light-wallet/src/nightfrost-sdk.ts:454-491 | over any run of polls on a growing chain the updates tile the tree from 0, and no transaction is delivered twice |
| ShieldedSync.RunDeliversAll | examples/light-wallet/src/nightfrost-sdk.ts:454-491 | when every relevant transaction added outputs, each is delivered exactly once |
| ShieldedSync.AlwaysDeliveredIff | crates/nightfrost-api/src/routes/entities.rs:1770-1772 | a relevant transaction is delivered by every run of polls that gets past it if and only if it moved the tree's end |
| ShieldedSync.EmptyTransactionDependsOnPolls | crates/nightfrost-api/src/routes/entities.rs:1770-1772 | a relevant transaction without outputs is delivered by one poll schedule and skipped by another |
| ShieldedSync.Wallet.Poll | examples/light-wallet/src/nightfrost-sdk.ts:454-491 | one request to a server whose chain will still grow: the updates received are always the run of the polls so far |
| Agreement.LiveRowsOrdered | crates/nightfrost-chain/src/pipeline.rs:714-722 | the rows the shielded feed walks are ordered in every reachable store |
| PollFeeds.WalletDustSync | crates/nightfrost-api/src/routes/entities.rs:1867-1918 | at most `count` events from the start on, with the position scanned through and the count error |
| PollFeeds.NeverSkips | crates/nightfrost-api/src/routes/entities.rs:1876-1906 | no event below `scanned_through` is left out, whatever was committed between the reads |
| PollFeeds.RedeliversIff | crates/nightfrost-api/src/routes/entities.rs:1876-1906 | two polls in a row deliver an event twice exactly when the first found fewer than `count` events, one of them at or beyond the highest id read first |
| PollFeeds.Redelivery | examples/light-wallet/src/nightfrost-sdk.ts:537-626 | a concrete pair of polls that delivers an event twice; the client's filter lets it through both times |
| PollFeeds.FreshIsAbove | examples/light-wallet/src/nightfrost-sdk.ts:603 | the client's filter keeps exactly the events at or above the position applied |
| PollFeeds.FreshIsAll | examples/light-wallet/src/nightfrost-sdk.ts:603 | so it drops nothing of a page that was read from that position |
| PollFeeds.DustFeed.Poll | examples/light-wallet/src/nightfrost-sdk.ts:537-575 | the DUST feed's position never moves back, no event below it is ever unapplied, and all events of the page are applied |
| PollFeeds.DustFeed.ApplyUpdate | examples/light-wallet/src/nightfrost-sdk.ts:597-626 | an update applies what the filter lets through and moves the wallet's progress |
| PollFeeds.UnshieldedFeed.Poll | examples/light-wallet/src/nightfrost-sdk.ts:378-420 | with blocks committed between any two lookups, a poll delivers the fetched transactions once, in order and under their own ids if and only if each is the latest with its hash when it is looked up, and then the feed stays exact; otherwise its updates and position are still those of the code |
| PollFeeds.UniqueAllLatest | crates/nightfrost-api/src/routes/entities.rs:82-98 | when no two transactions share a hash, every fetched one is the latest with its hash |
| PollFeeds.FetchedByWalk | examples/light-wallet/src/nightfrost-sdk.ts:385-396 | a completed walk over the address listing leaves no gap below the total read before it |
| PollFeeds.UpdatesExact | examples/light-wallet/src/nightfrost-sdk.ts:398-407 | each fetched transaction is delivered once under its own id exactly when it is the latest with its hash |
| PollFeeds.DuplicateHash | crates/nightfrost-api/src/routes/entities.rs:82-98 | of two own transactions with one hash the older is never delivered and the newer twice |
| KeyEncoding.PrefixedKeys | crates/nightfrost-core/src/store.rs:221-231 | keys order like their ids, and prefix and id can be read back whatever the prefix lengths |
| KeyEncoding.BigEndianOrder | crates/nightfrost-core/src/store.rs:221-226 | numeric order is byte order |
| KeyEncoding.UtxoKeyInjective | crates/nightfrost-core/src/store.rs:234-239 | UTXO keys are injective |
| KeyEncoding.UtxoKeyOrder | crates/nightfrost-core/src/store.rs:234-239 | the keys behind an intent hash are those of its outputs, in the order of the outputs |
| KeyEncoding.UnspentKeyInjective | crates/nightfrost-chain/src/pipeline.rs:1066-1072 | unspent keys are injective in owner, token and UTXO |
| KeyEncoding.UnspentKeyPrefix | crates/nightfrost-chain/src/pipeline.rs:1066-1072 | the keys behind an owner are exactly that owner's, behind an owner and a token exactly that account's, and end with the UTXO key |
| KeyEncoding.DustGenOwnerKeyInjective | crates/nightfrost-chain/src/pipeline.rs:1054-1064 | owner keys are injective although owners have variable length |
| KeyEncoding.DustGenOwnerKeyPrefix | crates/nightfrost-api/src/routes/entities.rs:1496-1501 | among the keys behind an owner, those 32 bytes longer are exactly that owner's, and the last 32 bytes of a key are the hash |
| KeyEncoding.PrefixEnd | crates/nightfrost-api/src/pagination.rs:172-184 | the range from a prefix to its end is exactly the keys with that prefix, and there is no end exactly when the prefix is all 0xff or empty |
| KeyEncoding.PrefixEndLeast | crates/nightfrost-api/src/pagination.rs:172-173 | that end is the least string above every key with the prefix |
| KeyEncoding.Scope | crates/nightfrost-api/src/pagination.rs:154-165 | the scope is the order byte and each part behind its length |
| KeyEncoding.ScopeInjective | crates/nightfrost-api/src/pagination.rs:154-165 | equal scopes mean equal parts and order, for parts shorter than 2^32 bytes |
| KeyEncoding.ScopeCollision | crates/nightfrost-api/src/pagination.rs:160-161 | without that bound two part lists share a scope, because the length is cast to u32; no query parameter the API accepts is that long |
| Cursor.Encode | crates/nightfrost-api/src/pagination.rs:93-106 | the token is the signed payload of version, anchor, query and position |
| Cursor.TokenLayout | crates/nightfrost-api/src/pagination.rs:93-106 | a token is `nf1.` and the base64 of 1, the u64 height, the block hash, 16 bytes of the query's digest, the position behind its u16 length, and 16 bytes of their MAC |
| Cursor.DecodeEncoded | crates/nightfrost-api/src/pagination.rs:108-145 | a token decodes under its own scope to the anchor and position it was made from |
| Cursor.DecodeOnlyEncoded | crates/nightfrost-api/src/pagination.rs:108-145 | only tokens that encode their own contents for this scope decode |
| Cursor.ForeignScope | crates/nightfrost-api/src/pagination.rs:128-132 | a token of another query is refused with that query's error |
| Pagination.ScopesDiffer | crates/nightfrost-api/src/routes/entities.rs:442-445 | cursors of different listings, arguments or orders have different scopes |
| Pagination.FetchPage | crates/nightfrost-api/src/routes.rs:99-136 | a request fails exactly with its context's error, and otherwise gets the first `count` visible rows beyond the cursor, in order, with a next cursor exactly when there are more; the tip is read from one store and the rows from a later one |
| Pagination.BadRequests | crates/nightfrost-api/src/pagination.rs:47-60 | the count error exactly for counts outside 1 to 5000, and the page error exactly for a `page` with a count inside |
| Pagination.CursorRequests | crates/nightfrost-api/src/routes.rs:82-123 | a request with a cursor is served exactly when the cursor is one of this listing and order, its tip is still the block at its height and its position is an id; it is gone, with one or the other message, exactly when that block is missing or another one |
| Pagination.CollectRows | crates/nightfrost-api/src/routes/entities.rs:475-499 | the loop takes exactly the wanted rows among the entries seen and stops at one more than the page, for either order and with rows of longer addresses and rows above the anchor skipped |
| Pagination.RangeHasPrefix | crates/nightfrost-api/src/routes/entities.rs:1255-1258 | every key of the range starts with the prefix, so the check inside the loop never ends it |
| Pagination.OwnKeyInRange | crates/nightfrost-api/src/routes/entities.rs:462-473 | the byte bounds of a page select exactly the ids beyond the cursor and not below the start |
| Pagination.OwnerCheck | crates/nightfrost-api/src/routes/entities.rs:734-738 | the address check picks out exactly the listing's own keys |
| PageWalk.WalkComplete | crates/nightfrost-api/src/routes/entities.rs:963-1024 | following `next_cursor` to the end while rows are appended above the anchor, between requests and within them, delivers exactly the rows visible when the first tip was read, once each and in order, for every page size |
| PageWalk.WalkEnds | crates/nightfrost-api/src/routes/entities.rs:698-790 | every page but the last is full and not empty, so a walk ends after at most as many pages as rows |
| PageWalk.NextAccepted | crates/nightfrost-api/src/routes.rs:82-123 | the cursor handed out is accepted by every later store, with the same anchor and the last row's position |
| PageWalk.VisibleStable | crates/nightfrost-api/src/routes/entities.rs:484-490 | what is visible at an anchor does not change once the anchor is the tip |
| PageWalk.PagesJoin | crates/nightfrost-api/src/routes/entities.rs:1207-1309 | two consecutive pages are one longer page |
| LiveListings.RunIsLater | crates/nightfrost-chain/src/pipeline.rs:688-1052 | the writer only adds rows, above the tip of every store the run passed through |
| LiveListings.LiveListingIndexed | crates/nightfrost-api/src/routes/entities.rs:698-790 | every listing of a reachable store is consistent: each key has its record, with the key's address |
| LiveListings.LiveListingGrows | crates/nightfrost-api/src/routes/entities.rs:1207-1309 | between two stores of one run every listing grows only above the old tip |
| LiveListings.EntriesMean | crates/nightfrost-api/src/routes/entities.rs:435-513 | in a reachable store the index of each listing holds exactly the ids of the rows the listing is for |
| LiveListings.LiveWalk | crates/nightfrost-api/src/routes/entities.rs:435-513 | while the writer appends blocks between requests and within them, a client gets, in order, exactly the transactions that create or spend a UTXO of the address, the actions or events of the contract, or all events, from the start id on, as they were in the store whose tip its first request read |
| BitGroups.ConvertBits | tests/differential/lib.mjs:59-71 | regrouping with an accumulator that wraps at 32 bits computes the number read with one digit width and written with the other, and fails exactly on out-of-range values or non-zero padding |
| BitGroups.ConvertBack | tests/differential/lib.mjs:59-71 | bytes to groups of five bits and back are the same bytes |
| BitGroups.ConvertForth | tests/differential/lib.mjs:59-71 | groups that convert to bytes are the groups of those bytes |
| BitGroups.ReadBits | tests/differential/lib.mjs:63-66 | bits read from the wrapped accumulator are bits of the unwrapped number |
| BitGroups.FreeBits | tests/differential/lib.mjs:64 | after the wrapping shift the low bits are free, so the or does not wrap |
| Bech32.Polymod | tests/differential/lib.mjs:43-51 | the checksum is the fold of its step and stays a non-negative 30-bit number |
| Bech32.FoldLinear | tests/differential/lib.mjs:43-51 | appended symbols act independently of what precedes them |
| Bech32.ChecksumForced | tests/differential/lib.mjs:73-80 | six symbols complete the values to `spec` exactly when they spell out the encoder's checksum |
| GeneratorPolynomial.GeneratorSymbols | tests/differential/lib.mjs:40 | constant `i` spells as six symbols the coefficients 29, 22, 20, 21, 29, 18 of BIP-173's generator polynomial, each doubled `i` times in GF(32) |
| GeneratorPolynomial.ChecksumIsRemainder | tests/differential/lib.mjs:43-51 | for every list of five-bit values the checksum is the remainder, modulo that polynomial over GF(32), of the values behind a leading one: it is `c` exactly when the values are a multiple of the polynomial plus the symbols of `c` |
| GeneratorPolynomial.DecodesIff | tests/differential/lib.mjs:81-98 | a string decodes to given bytes and constant exactly when the constant is 1 or 0x2bc830a3, the polynomial of high bits, zero, low bits and data leaves it, and the symbols before the last six convert to the bytes |
| GeneratorPolynomial.EncodedRemainder | tests/differential/lib.mjs:73-80 | the polynomial of what the encoder writes leaves the constant it was given |
| Bech32.HrpExpand | tests/differential/lib.mjs:52-58 | high bits, a zero, low bits |
| Bech32.Encode | tests/differential/lib.mjs:73-80 | the loops compute the string that `DecodeEncoded` and `EncodeDecoded` speak of: prefix, separator, groups of five bits and the six symbols of the checksum |
| Bech32.Decode | tests/differential/lib.mjs:81-98 | the loops and checks compute the decoding that those round trips speak of, with the same failures |
| Bech32.DecodeEncoded | tests/differential/lib.mjs:73-98 | for every non-empty lowercase hrp and byte string decoding an encoding returns them, with the checksum constant, and fails for any other constant |
| Bech32.LetterCases | tests/differential/lib.mjs:82-83 | a string with letters of both cases does not decode, and one in capitals decodes like the one in small letters |
| Bech32.EncodeDecoded | tests/differential/lib.mjs:73-98 | whatever decodes is the encoding of what it decodes to, up to letter case |
| Faucet.ClaimsProtocol | examples/faucet/src/server.ts:35-123 | over every interleaving: a claim that has not ended is its network's active claim, no claim's transfer is started twice, a worker transfers only the active claim; a complete claim's transfer was started and succeeded, and a failed claim's was rejected, never started, or lost with its worker |
| Faucet.RunKeepsOutcome | examples/faucet/src/server.ts:112-123 | a complete or failed claim never changes again |
| Faucet.StepKeeps | examples/faucet/src/server.ts:52-98 | every message, failure, exit, restart and clean-up keeps the active claim in exactly one place |
| Faucet.ActiveIsPending | examples/faucet/src/server.ts:71-88 | an active claim is never stuck: its command, transfer, last event or worker exit is still to come |
| Faucet.StepKeepsOutcomes | examples/faucet/src/faucet-wallet.ts:189-216 | every step keeps that a complete claim's transfer succeeded, that a failed claim's was rejected, never started or lost with its worker, and that the event that tells the outcome of a finished transfer is under way until it is delivered |
| Faucet.OutcomeShows | examples/faucet/src/faucet-wallet.ts:189-216 | over every run a listed claim whose transfer finished is complete after success and failed after rejection, unless the event saying so is still under way or its worker's exit failed it first |
| Faucet.StepListsClaims | examples/faucet/src/server.ts:171-216 | a claim enters the list exactly when a ready wallet without an active claim admits it, and leaves it exactly by a clean-up whose cutoff is later than its creation |
| Faucet.WalletProxy.OnMessage | examples/faucet/src/server.ts:57-67 | the message handler's effect on proxy and claims |
| Faucet.WalletProxy.OnExit | examples/faucet/src/server.ts:71-88 | the exit handler fails the active claim and frees the proxy |
| Faucet.WalletProxy.Admit | examples/faucet/src/server.ts:90-98 | 503 unless ready, 429 while a claim is active, otherwise the command is posted |
| Faucet.WalletProxy.Post | examples/faucet/src/server.ts:171-183 | a refused claim leaves the list as it was |
| Faucet.WorkerWallet.OnCommand | examples/faucet/src/wallet-worker.ts:36-54 | the worker starts the transfer or reports the claim as failed at once |
| Faucet.WorkerWallet.OnTransferred | examples/faucet/src/faucet-wallet.ts:189-216 | success reports the claim as complete, rejection as failed and starts the recovery |

## Left out

- cnight_registrations: the writer reads the store and not the batch for them, so two events for one key in one block do not compose; the refinement is stated without that partition.
- Ledger replay, proofs, decryption and contract state: foreign code; what it guarantees appears as `ValidTx` and as function parameters.
- Record encoding (postcard), metrics, garbage-collection timing, the watchdog, HTTP headers and CORS: they add only easy members.
- Fields that are copied without being interpreted (fees, results, segments, UTXO metadata, block author and roots): records carry only fields that some index or reader depends on.
- u64 id counters are unbounded in the writer; the byte-key modules state the bound 2^64 where they need it.
- SHA-256, HMAC and base64url: functions with the laws the code relies on, not computed.
- PollFeeds.DustFeed.Poll: states that nothing is skipped and not that everything is delivered once, because the code redelivers; RedeliversIff gives the exact condition.
- PageWalk.WalkComplete: needs an anchor, so it does not cover a first request to an empty store, whose response has no cursor.
- BlockStream.FinalizedBlocks: needs existing blocks to be higher than their parents and a lookup to answer with a block of the height or hash asked for; on nodes that lie about this the source loop may not end.
- BlockStream: receive errors and the time-out before a resubscription are part of the arbitrary sequence of live blocks.
- ShieldedSync: collapsed Merkle updates and viewing-key decryption are abstract; the ledger's first free index is a parameter.
- WalletSidecars.BackfillWalletSidecars: the current end of the tree, which the source takes from the ledger state, is a parameter.
- ContractEvents.BackfillContractEvents: the log and the tables are read as they were at the start, as the source does while nothing else writes.
- `address_utxos`, `contracts`, `dust_registrations` and `dust_generation_status` read current state, not a snapshot at an anchor.
- The unit `missing record` errors of the listings carry one message here; the source names the kind of record.
- Bech32: upper and lower case are those of ASCII; Unicode case mapping is not part of this model.
- The wallet's own state after an update (coins, trees, transaction history) and the wallet user interface.
- The faucet's shutdown, its status endpoint, address validation and recovery by rebuilding the wallet beyond the state it announces.
- Ledger versions beside the keys of the retention window, translation of the ledger state between versions, and the genesis swap.
