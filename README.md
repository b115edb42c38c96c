# BitSharp blockchain daemon, modelled in Dafny

This project models the bookkeeping core of BitSharp's `BlockchainDaemon`:

- the **chaining pass**, which turns stored block headers whose parents are already chained into chained blocks. Each chained block's height is its parent's height plus one. Its total work is the parent's total work plus the header's own work.
- the **missing-data sets** (missing blocks, missing chained blocks, missing transactions) and the **unchained set**. Cache events, lookups and missing-data faults keep these up to date.
- the **winning block**, the cached **winning chain**, and the **current chain state**. Every write of the current state carries a fresh version token. A progress callback compares its token with the last write.
- the startup choice among stored chain-state snapshots, and the checkpoint writer.

The files:

- `chain_index.dfy` (module `ChainIndex`): the value types (hash, header, block, chained block). It also holds the invariant `Consistent` of the chained-block map and the facts that follow from it:
  - every chained block has a path back to genesis with no cycle;
  - total work is the sum of header work along that path;
  - a block's height and total work do not depend on the order in which headers were chained.
- `chain_state.dfy` (module `ChainState`): a committed chain state (identified by its root block), snapshot keys, and the startup snapshot choice.
- `blockchain_daemon.dfy` (module `Daemon`): the daemon as a class `BlockchainDaemon`. Its caches are `map` fields, its concurrent sets are `set` fields, and the workers' wake-up notifications are `bool` flags.

Each worker body is an ordinary method. A worker calls out to the chain calculator, the rules' winner selection, the chain lookup, revalidation and storage. The method receives each such call's outcome as a datatype parameter: `Selection`, `ChainLookup`, `Advance`, `Revalidation`, the snapshot listing, and a `read` function. Block work (`CalculateWork`) is a function-valued constant of the daemon. Hashes are an abstract type that only supports equality.

Validation failures are handled in two different ways. When the chain state is being advanced, `BlockchainWorker` catches the failure and does nothing with it (`BitSharp.Daemon/BlockchainDaemon.cs:657-661`), so the state stays at the last progress step. Only `ValidateCurrentChainWorker` rolls the current state back to genesis (`:576-587`).

## Model

| member | source | states |
|---|---|---|
| ChainIndex.ChainOntoKeepsConsistent | BitSharp.Daemon/BlockchainDaemon.cs:470-477 | Chaining a header onto its chained parent, when the header's hash is not yet chained, keeps the chained map consistent. `ChainOnto` builds the new block as at 470-476: keyed by the header's hash, with height the parent's plus one and total work the parent's plus the header's work. |
| ChainIndex.GenesisIsOnlyHeightZero | BitSharp.Daemon/BlockchainDaemon.cs:470-477 | In a consistent chained map, a block has height 0 if and only if it is genesis. |
| ChainIndex.PathToGenesis | BitSharp.Daemon/BlockchainDaemon.cs:155-166 | Following previous links from any chained block reaches genesis. The path has length height + 1, starts at genesis and ends at the block. Position i holds the block of height i, and each link follows a stored header. No hash repeats, so there is no cycle. |
| ChainIndex.TotalWorkIsSumAlongPath | BitSharp.Daemon/BlockchainDaemon.cs:470-476 | A chained block's total work equals genesis's work plus the work of every header on its path from genesis. |
| ChainIndex.ChainedValueIndependentOfOrder | BitSharp.Daemon/BlockchainDaemon.cs:460-477 | Two consistent chained maps over the same headers agree on every hash they share. Height and total work do not depend on chaining order. |
| ChainState.SelectStartupSnapshot | BitSharp.Daemon/BlockchainDaemon.cs:329-340 | There is no winner exactly when the listing is empty. Otherwise the winner has maximal total work, and it is the first entry with that work, because ties keep the earlier entry. |
| Daemon.FaultKeysMembership | BitSharp.Daemon/BlockchainDaemon.cs:788-805 | A key is among the keys routed to a set exactly when some fault of one of that set's kinds names it. |
| Daemon.ScanSkipStep | BitSharp.Daemon/BlockchainDaemon.cs:396-401 | Scanning a hash that is chained, or that has no stored header, files nothing. It grows the set of scanned hashes by exactly that hash. |
| Daemon.FileHeaderStep | BitSharp.Daemon/BlockchainDaemon.cs:417-423 | Filing an unchained, stored header that has not been scanned before, under its previous hash, keeps the groups exactly the grouped headers of the scanned hashes. No group holds a header twice. |
| Daemon.ScanHeaderStep | BitSharp.Daemon/BlockchainDaemon.cs:403-423 | Scanning an unchained hash with a stored header files the header under its previous hash, and no group holds a header twice. The first time that parent is met, and if it is chained, it becomes a seed. Seeds stay listed once each. |
| Daemon.GroupStep | BitSharp.Daemon/BlockchainDaemon.cs:460-480 | Chaining the next header of a group extends the chained prefix. The new block is built from the parent and the header, and no entry that was already there changes. |
| Daemon.PassStep | BitSharp.Daemon/BlockchainDaemon.cs:433-481 | Each work-list step chains only snapshot hashes and keeps the extended work list chained. When it chains something, it strictly shrinks the snapshot's unchained part, which is why the pass terminates. |
| Daemon.ScanFeedsWalk | BitSharp.Daemon/BlockchainDaemon.cs:388-433 | The scan's results start the work-list walk. The seeds are chained and distinct, no group has been taken, and nothing has been chained yet. Every chained parent of a group is on the list. |
| Daemon.WalkTake | BitSharp.Daemon/BlockchainDaemon.cs:437-444 | The list's next block is chained as listed. If its group is still pending, that group holds stored snapshot headers whose previous hash is this block. |
| Daemon.PendingUnchained | BitSharp.Daemon/BlockchainDaemon.cs:431-481 | While the walk runs, no header of a group still pending in the map has been chained. |
| Daemon.CreatedFromGroup | BitSharp.Daemon/BlockchainDaemon.cs:460-481 | Every block that chaining a group added is the chained block of one of the group's first headers. |
| Daemon.GroupChainedWhole | BitSharp.Daemon/BlockchainDaemon.cs:466-467 | A group of distinct, unchained headers is chained whole. The "already chained" break never fires for it. |
| Daemon.ListDistinctStep | BitSharp.Daemon/BlockchainDaemon.cs:480 | Appending the newly chained blocks keeps the work list free of repeated hashes. |
| Daemon.TakenExactlyStep | BitSharp.Daemon/BlockchainDaemon.cs:440-444 | Taking the next block's pending group out of the map keeps the map holding exactly the groups of the parents not yet reached. |
| Daemon.TakenChainedStep | BitSharp.Daemon/BlockchainDaemon.cs:460-481 | Once a group has been chained whole, every header in the group of every parent already reached is chained. |
| Daemon.NewFromTakenStep | BitSharp.Daemon/BlockchainDaemon.cs:460-481 | Every block chained during the pass is on the work list and comes from the group of a parent already reached. |
| Daemon.StartListedStep | BitSharp.Daemon/BlockchainDaemon.cs:480 | Extending the work list keeps every seed parent on it. |
| Daemon.WalkGroupStep | BitSharp.Daemon/BlockchainDaemon.cs:440-481 | Reaching a block whose group is pending chains the whole group and keeps the walk's invariant. Whatever it chains leaves the snapshot's unchained part. |
| Daemon.WalkFallbackStep | BitSharp.Daemon/BlockchainDaemon.cs:446-457 | Reaching a block with no pending group chains nothing, and the walk's invariant holds one position further on. |
| Daemon.WalkComplete | BitSharp.Daemon/BlockchainDaemon.cs:431-482 | At the end of the list, every header of the snapshot that was unchained and whose parent is now chained has been chained. |
| Daemon.ReachedInBoth | BitSharp.Daemon/BlockchainDaemon.cs:377-495 | A block chained by one complete pass from the same starting map is chained by any other complete pass too. The proof follows the block's links down to the starting map. |
| Daemon.PassOutcomeDetermined | BitSharp.Daemon/BlockchainDaemon.cs:377-495 | Two consistent outcomes of a pass from the same starting map are equal if both grow it only within the snapshot's stored headers and both leave no link unmade. The chained map after a pass does not depend on the order of the work list. |
| Daemon.BlockchainDaemon.constructor | BitSharp.Daemon/BlockchainDaemon.cs:66-109 | Genesis is the winning block, the winning chain and the current state. Genesis is written into the block and chained caches. The unchained set is the stored headers minus the chained ones. The missing sets are empty. |
| Daemon.BlockchainDaemon.OnBlockHeaderAddition | BitSharp.Daemon/BlockchainDaemon.cs:269-273 | The hash joins the unchained set exactly when it is not chained. |
| Daemon.BlockchainDaemon.OnBlockHeaderModification | BitSharp.Daemon/BlockchainDaemon.cs:275-278 | Same effect as the addition handler. |
| Daemon.BlockchainDaemon.OnBlockAddition | BitSharp.Daemon/BlockchainDaemon.cs:280-295 | The hash leaves the missing blocks. The chaining and chain-state workers are woken. The hash joins the unchained set unless it is chained. |
| Daemon.BlockchainDaemon.OnBlockModification | BitSharp.Daemon/BlockchainDaemon.cs:297-300 | Same effect as the addition handler. |
| Daemon.BlockchainDaemon.OnChainedBlockAddition | BitSharp.Daemon/BlockchainDaemon.cs:302-316 | The hash leaves the missing chained blocks and the unchained set. The chaining worker is woken. |
| Daemon.BlockchainDaemon.OnChainedBlockModification | BitSharp.Daemon/BlockchainDaemon.cs:318-321 | Same effect as the addition handler. |
| Daemon.BlockchainDaemon.StoreHeader | BitSharp.Daemon/BlockchainDaemon.cs:101-102 | Writing a header to the header cache stores it and runs the header handler. The chained map stays consistent. |
| Daemon.BlockchainDaemon.StoreBlock | BitSharp.Daemon/BlockchainDaemon.cs:103-104 | Writing a block to the block cache stores it and runs the block handler. |
| Daemon.BlockchainDaemon.TryGetBlock | BitSharp.Daemon/BlockchainDaemon.cs:703-716 | Found if and only if the block is stored, and then returns the stored block. Afterwards the hash is a missing block if and only if the lookup failed. No other hash changes. |
| Daemon.BlockchainDaemon.TryGetBlockHeader | BitSharp.Daemon/BlockchainDaemon.cs:718-738 | Found if and only if the header or the block is stored. The stored header comes first, otherwise the block's header. The hash is missing afterwards if and only if both were absent. |
| Daemon.BlockchainDaemon.TryGetChainedBlock | BitSharp.Daemon/BlockchainDaemon.cs:740-756 | Found if and only if the hash is chained. On failure the hash joins the missing chained blocks, and the missing blocks too when the block itself is not stored. |
| Daemon.BlockchainDaemon.TryGetTransaction | BitSharp.Daemon/BlockchainDaemon.cs:758-771 | Found if and only if the key is stored. The missing-transaction set gains or loses the transaction's hash. |
| Daemon.BlockchainDaemon.HandleMissingData | BitSharp.Daemon/BlockchainDaemon.cs:788-805 | Block and header faults go to the missing blocks, chained-block faults to the missing chained blocks, and transaction faults to the missing transactions. The other sets are unchanged. |
| Daemon.BlockchainDaemon.HandleAllMissingData | BitSharp.Daemon/BlockchainDaemon.cs:644-647 | Each set gains exactly the keys of the faults of its kinds. |
| Daemon.BlockchainDaemon.ScanUnchained | BitSharp.Daemon/BlockchainDaemon.cs:388-427 | Chained hashes of the snapshot leave the unchained set, and hashes without headers become missing blocks. Every other header of the snapshot is grouped under its previous hash. Each chained parent of a grouped header is listed once as a seed. |
| Daemon.BlockchainDaemon.FallbackGroup | BitSharp.Daemon/BlockchainDaemon.cs:446-457 | Yields the stored headers of exactly the chained children of the parent, so every header it yields is already chained. |
| Daemon.BlockchainDaemon.ChainGroup | BitSharp.Daemon/BlockchainDaemon.cs:460-481 | Chains a prefix of the group, in order, and keeps the map consistent. It stops at the first header that is already chained. The map gains one key per created block. A group that is all chained already creates nothing. |
| Daemon.BlockchainDaemon.ChainChildren | BitSharp.Daemon/BlockchainDaemon.cs:437-481 | One work-list step keeps the map consistent and the walk's invariant true one position further on. It gains one key per created block. Either it shrinks the snapshot's unchained part, or it creates nothing. |
| Daemon.BlockchainDaemon.WalkWorkList | BitSharp.Daemon/BlockchainDaemon.cs:430-495 | Keeps the map consistent and every old entry, and adds only stored snapshot headers. Every such header whose parent ends up chained is chained. The count is the number of new entries, at most the snapshot's size, and positive exactly when something was chained. |
| Daemon.BlockchainDaemon.ChainingPass | BitSharp.Daemon/BlockchainDaemon.cs:377-495 | Consistency is kept and no chained entry is replaced. New entries are snapshot headers. Every snapshot header whose parent ends up chained is chained. The count is the number of new entries. The unchained set loses exactly the hashes that were already chained, and snapshot hashes without headers become missing blocks. |
| Daemon.BlockchainDaemon.ChainingWorker | BitSharp.Daemon/BlockchainDaemon.cs:377-512 | The chaining pass's guarantees hold, including that no link is left unmade. The chaining worker is woken again exactly when something was chained, and the winner and chain-state workers are always woken. |
| Daemon.BlockchainDaemon.UpdateWinningBlock | BitSharp.Daemon/BlockchainDaemon.cs:807-822 | Sets the winner, forgets the cached winning chain, and wakes the chain-state worker. |
| Daemon.BlockchainDaemon.UpdateCurrentBlockchain | BitSharp.Daemon/BlockchainDaemon.cs:829-844 | Replaces the current state and returns a fresh token, which becomes the last write. Tokens grow strictly. |
| Daemon.BlockchainDaemon.GetWinningBlockchain | BitSharp.Daemon/BlockchainDaemon.cs:141-186 | Returns the cached chain while it is known. Otherwise it returns and caches the lookup's chain, or genesis alone when none is found. A lookup that fails outright returns genesis alone and leaves the cache unknown. |
| Daemon.BlockchainDaemon.WinnerWorker | BitSharp.Daemon/BlockchainDaemon.cs:517-547 | Adopts the selected block if and only if it is a block whose hash differs from the winner's. Otherwise nothing changes. Missing-data faults are routed. |
| Daemon.BlockchainDaemon.ProgressStep | BitSharp.Daemon/BlockchainDaemon.cs:621-638 | Cancellation is requested if and only if the token no longer matches the last write. Either way the step is published under a new token and the writer is woken. |
| Daemon.BlockchainDaemon.BlockchainWorker | BitSharp.Daemon/BlockchainDaemon.cs:599-681 | Only the winning-chain cache can change when the current root is the winner. Otherwise the current state is the last progress step, and the token moves once per step. Faults are routed per exit path, as `HandledFaults` defines. A completed advance hands on every fault it collected. A validation failure hands on nothing. A missing-data failure hands on its fault. An aggregate failure hands on its missing-data parts. Revalidation is woken exactly when the advancement completed. |
| Daemon.BlockchainDaemon.ValidateCurrentChainWorker | BitSharp.Daemon/BlockchainDaemon.cs:563-596 | A validation failure rolls the current state back to genesis under a new token. A missing-data fault is routed. Nothing else changes. |
| Daemon.BlockchainDaemon.WriteBlockchainWorker | BitSharp.Daemon/BlockchainDaemon.cs:683-701 | Writes the current state, and removes snapshots below its total work if and only if its height is above 0. |
| Daemon.BlockchainDaemon.LoadExistingState | BitSharp.Daemon/BlockchainDaemon.cs:323-355 | With snapshots stored, the first one of maximal work becomes the current state and its root the winner. Snapshots below its work are to be removed. With none, nothing changes. |

## Left out

- Concurrency: the locks, the worker threads and their scheduling are not modelled, and neither is cancellation on shutdown. Each worker body runs as one sequential step, and a wake-up is a boolean flag.
- Foreign calls become parameters. These are the chain calculator's advancement and revalidation, the rules' winner selection over `FindLeafChainedBlocks`, `TryGetChain`, and snapshot listing, reading and writing. Their internals are not part of this model.
- Storage and cache internals are not modelled: flushing, `FillCache`, the `saveInCache` argument, and `GC.Collect`. The cache's own event dispatch is not modelled either. `StoreHeader` and `StoreBlock` pair a write with the handler it triggers.
- Daemon.BlockchainDaemon.ChainGroup: creating a chained block in the pass does not run `OnChainedBlockAddition`. Whether the cache raises that event for `CreateValue` (`:477`) lies outside this model.
- Daemon.BlockchainDaemon.ChainingPass: its ensures on the unchained set and the missing chained blocks depend on the `ChainGroup` choice above. If the cache raises its addition event for `CreateValue`, the source also removes every newly chained hash from `unchainedBlocks` and `missingChainedBlocks`.
- Daemon.BlockchainDaemon.ChainingWorker: its unchained-set ensures depends on the same choice, for the same reason as `ChainingPass`.
- Daemon.BlockchainDaemon.constructor: requires the stored chained-block cache to be consistent with the stored headers. That means linked to genesis, with matching heights and total work. The source loads its caches at startup without checking this.
- Daemon.BlockchainDaemon.StoreHeader: requires that a stored hash is rewritten only with the same header. The source's `UpdateValue` accepts any header. Only header hashing makes a hash name one header, and hashing is not modelled.
- Stopwatches, `Debug` output and the winning-block and current-state event handlers are not modelled, because they are logging and external callbacks.
- The intermediate wake-ups every 1000 chained blocks (`:487-494`) are not modelled separately. The pass always ends by waking those same two workers.
- `UInt256` hashes and `BigInteger` work become an abstract hash and `nat`. Work is unbounded, so there is no overflow.
- The `IsDefault` checks on the winning block, winning chain and current state are not modelled, because these values are never default in the model. The check on the genesis block is left out for the same reason.
- Daemon.BlockchainDaemon.WinnerWorker: an aggregate failure that also holds exceptions other than missing data is rethrown (`:549-550`). The model routes only the missing-data part.
- `ValidationWorker` (`:554-561`) has an empty body apart from its stopwatch, so there is nothing to model.
- The version token is a `Guid` in the source. The model uses a counter, which keeps "differs from every earlier token" without randomness.
- `Start`, `Dispose`, the `WaitFor…` methods and the memory-size properties mainly drive threads or report sizes, so they are not modelled.
